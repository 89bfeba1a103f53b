/** What one serialised call of the sidecar may do when storage, the journal or the Core fails on the
    way. A call either ends early with an error after some of its writes, or goes on along a run that
    depends on whether its observations could read the refs and on how its publication attempt fared. */
module SidecarFaults {
  import opened Base
  import opened Synapse
  import opened SidecarSpec

  /** What has failed so far: calls of the journal, the object store and the receipt query; reads of the
      refs; and every error the Core gave, in order. */
  datatype Faults = Faults(store: nat, refs: nat, core: seq<SidecarError>)

  predicate Grows(f: Faults, g: Faults) { f.store <= g.store && f.refs <= g.refs && f.core <= g.core }

  /** What fails during a call: the faults before and after it, and whether the power has gone. */
  datatype Trouble = Trouble(before: Faults, after: Faults, dead: bool)

  /** A part of a call meets no other trouble than the call. */
  predicate Within(x: Trouble, y: Trouble)
  {
    Grows(y.before, x.before) && Grows(x.before, x.after) && Grows(x.after, y.after) && (x.dead ==> y.dead)
  }

  predicate RefsFailed(x: Trouble) { x.after.refs > x.before.refs }

  /** The Core gave this error. */
  predicate Said(x: Trouble, error: SidecarError)
  {
    exists k :: |x.before.core| <= k < |x.after.core| && x.after.core[k] == error
  }

  /** A call ends early with an error only if its journal failed or the power went; or, once another head is
      live than the review expects, if the Core or the refs failed it. */
  predicate Excused(b: Binding, x: Trouble, t: State, error: SidecarError)
  {
    || x.after.store > x.before.store
    || (x.dead && error == PowerLoss)
    || ((RefsFailed(x) || |x.after.core| > |x.before.core|) && (t.reflog == [] || Head(t) != b.expected))
  }

  /** Where a call that was to perform `run` may have ended: at its end, or with an excuse after any of its
      writes. */
  ghost predicate Ends<R>(run: Run<R>, b: Binding, x: Trouble, t: State, answer: Result<R, SidecarError>)
  {
    run.states != [] &&
    ((t == Last(run) && answer == run.answer) || (answer.Err? && Excused(b, x, t, answer.error) && t in run.states))
  }

  /** `t` and `answer` are where a call that was to perform `run` may have ended: after any of its
      writes with an error, or at its end. */
  ghost predicate Cut<R>(run: Run<R>, t: State, answer: Result<R, SidecarError>)
  {
    run.states != [] && ((answer.Err? && t in run.states) || (t == Last(run) && answer == run.answer))
  }

  /** An observation that cannot read the refs only marks an intent-bearing review as unknown. */
  function MarkUnknownRun(s: State, b: Binding): (run: Run<ReviewOutcome>)
    ensures Starts(run, s)
  {
    if b !in s.journal then Stay(s, Err(ReviewNotFound))
    else
      var review := s.journal[b];
      if review.intent == None || review.state == DecisionCommitted then Stay(s, Err(Storage))
      else if review.state == TerminalDenial then Stay(s, Ok(NotCommitted(TerminalDenial)))
      else if review.state == OutcomeUnknown then Stay(s, Ok(NotCommitted(OutcomeUnknown)))
      else Run([s, Marked(s, b, OutcomeUnknown)], Ok(NotCommitted(OutcomeUnknown)))
  }

  function ObserveRun(s: State, b: Binding, unreadable: bool): (run: Run<ReviewOutcome>)
    ensures Starts(run, s)
  {
    if unreadable then MarkUnknownRun(s, b) else ReconcileRun(s, b)
  }

  /** How a publication attempt fares: it fails before its compare-and-set, for whatever reason, or it
      gets there, and then its reply may still be lost as whatever error. */
  datatype Attempt = NotMade(error: SidecarError) | Made(lost: Option<SidecarError>)

  function AttemptRun(s: State, b: Binding, i: Intent, attempt: Attempt): (run: Run<()>)
    ensures Starts(run, s)
  {
    match attempt
    case NotMade(error) => Stay(s, Err(error))
    case Made(lost) =>
      var run := PublishRun(s, b, i);
      if run.answer.Ok? && lost.Some? then Run(run.states, Err(lost.value)) else run
  }

  /** After a failed attempt: a storage failure leaves an untouched review to a retry, any other refusal
      denies it. Only a resumption also denies a review that is not pending. */
  function TailRun(s: State, b: Binding, failure: SidecarError, seen: Result<ReviewOutcome, SidecarError>,
                   resuming: bool): (run: Run<ReviewOutcome>)
    ensures Starts(run, s)
  {
    match seen
    case Ok(NotCommitted(state)) =>
      if b !in s.journal || IsTerminal(state) || (state != PendingReview && (!resuming || failure == Storage))
         then Stay(s, seen)
      else FailedRun(s, b, failure)
    case _ => Stay(s, seen)
  }

  function FailedRun(s: State, b: Binding, failure: SidecarError): (run: Run<ReviewOutcome>)
    requires b in s.journal
    ensures Starts(run, s)
  {
    if failure == Storage then Run([s, Marked(s, b, RetryableFailure)], Ok(NotCommitted(RetryableFailure)))
    else Settle(s, b, TerminalDenial, NotCommitted(TerminalDenial))
  }

  predicate GoesOn(seen: Result<ReviewOutcome, SidecarError>, resuming: bool)
  {
    seen.Ok? && seen.value.NotCommitted? && !IsTerminal(seen.value.state)
      && (resuming || seen.value.state != OutcomeUnknown)
  }

  /** With an intent in place: observe, publish what is still undecided, observe again, and judge a
      failed attempt by what was observed. */
  function SettleUnder(s: State, b: Binding, i: Intent, first: bool, attempt: Attempt, second: bool,
                       resuming: bool): (run: Run<ReviewOutcome>)
    ensures Starts(run, s)
  {
    var seen := ObserveRun(s, b, first);
    if !GoesOn(seen.answer, resuming) then seen
    else Then(seen, PublishUnder(Last(seen), b, i, attempt, second, resuming))
  }

  function PublishUnder(s: State, b: Binding, i: Intent, attempt: Attempt, second: bool,
                        resuming: bool): (run: Run<ReviewOutcome>)
    ensures Starts(run, s)
  {
    var made := AttemptRun(s, b, i, attempt);
    Then(made, JudgeRun(Last(made), b, made.answer, second, resuming))
  }

  function JudgeRun(s: State, b: Binding, made: Result<(), SidecarError>, second: bool,
                    resuming: bool): (run: Run<ReviewOutcome>)
    ensures Starts(run, s)
  {
    var after := ObserveRun(s, b, second);
    if made.Ok? then after else Then(after, TailRun(Last(after), b, made.error, after.answer, resuming))
  }

  /** resume; a review without an intent is only observed. */
  function ResumeUnder(s: State, b: Binding, first: bool, attempt: Attempt, second: bool): (run: Run<ReviewOutcome>)
    ensures Starts(run, s)
  {
    if b !in s.journal || s.journal[b].intent == None then ObserveRun(s, b, first)
    else SettleUnder(s, b, s.journal[b].intent.value, first, attempt, second, true)
  }

  function DecideUnder(s: State, b: Binding, disposition: Disposition, rationale: Option<Rationale>, key: Bytes,
                       at: nat, first: bool, attempt: Attempt, second: bool): (run: Run<ReviewOutcome>)
    ensures Starts(run, s)
  {
    if !ValidKey(key) || !ValidPrivateRationale(rationale) then Stay(s, Err(InvalidArgument))
    else if b !in s.journal then Stay(s, Err(ReviewNotFound))
    else
      var registered := IntentRun(s, b, disposition, key, at);
      match registered.answer
      case Err(error) => Stay(s, Err(error))
      case Ok(i) => Then(registered, SettleUnder(Last(registered), b, i, first, attempt, second, false))
  }

  // ---- What the calls do under the faults they meet ----

  ghost predicate Observes(s: State, b: Binding, x: Trouble, t: State, answer: Result<ReviewOutcome, SidecarError>)
  {
    exists unreadable: bool :: (unreadable ==> RefsFailed(x)) && Ends(ObserveRun(s, b, unreadable), b, x, t, answer)
  }

  /** The error of an attempt is the Core's own, or that of an unread ref; a reply is only lost to the Core. */
  predicate IsMet(attempt: Attempt, x: Trouble)
  {
    match attempt
    case NotMade(error) => Said(x, error) || (RefsFailed(x) && error == Storage) || (x.dead && error == PowerLoss)
    case Made(lost) => lost.Some? ==> Said(x, lost.value)
  }

  ghost predicate Attempts(s: State, b: Binding, i: Intent, x: Trouble, t: State, answer: Result<(), SidecarError>)
  {
    exists attempt :: IsMet(attempt, x)
      && t == Last(AttemptRun(s, b, i, attempt)) && answer == AttemptRun(s, b, i, attempt).answer
  }

  ghost predicate Judges(s: State, b: Binding, made: Result<(), SidecarError>, resuming: bool, x: Trouble,
                         t: State, answer: Result<ReviewOutcome, SidecarError>)
  {
    exists second: bool :: (second ==> RefsFailed(x)) && Ends(JudgeRun(s, b, made, second, resuming), b, x, t, answer)
  }

  ghost predicate Publishes(s: State, b: Binding, i: Intent, resuming: bool, x: Trouble,
                            t: State, answer: Result<ReviewOutcome, SidecarError>)
  {
    exists attempt, second: bool :: IsMet(attempt, x) && (second ==> RefsFailed(x))
      && Ends(PublishUnder(s, b, i, attempt, second, resuming), b, x, t, answer)
  }

  ghost predicate Settles(s: State, b: Binding, i: Intent, resuming: bool, x: Trouble,
                          t: State, answer: Result<ReviewOutcome, SidecarError>)
  {
    exists first: bool, attempt, second: bool :: IsMet(attempt, x) && (first || second ==> RefsFailed(x))
      && Ends(SettleUnder(s, b, i, first, attempt, second, resuming), b, x, t, answer)
  }

  /** A call of decide that meets this trouble; unread refs may also keep it from making its intent. */
  ghost predicate DecidesIn(s: State, b: Binding, disposition: Disposition, rationale: Option<Rationale>, key: Bytes,
                            at: nat, x: Trouble, t: State, answer: Result<ReviewOutcome, SidecarError>)
  {
    || (answer == Err(Storage) && t == s && b in s.journal && s.journal[b].intent == None && RefsFailed(x))
    || exists first: bool, attempt, second: bool :: IsMet(attempt, x) && (first || second ==> RefsFailed(x))
         && Ends(DecideUnder(s, b, disposition, rationale, key, at, first, attempt, second), b, x, t, answer)
  }

  /** A call of resume that meets this trouble. */
  ghost predicate ResumesIn(s: State, b: Binding, x: Trouble, t: State, answer: Result<ReviewOutcome, SidecarError>)
  {
    exists first: bool, attempt, second: bool :: IsMet(attempt, x) && (first || second ==> RefsFailed(x))
      && Ends(ResumeUnder(s, b, first, attempt, second), b, x, t, answer)
  }

  /** A call of decide under some faults. */
  ghost predicate Decides(s: State, b: Binding, disposition: Disposition, rationale: Option<Rationale>, key: Bytes,
                          at: nat, t: State, answer: Result<ReviewOutcome, SidecarError>)
  {
    exists first: bool, attempt, second: bool ::
      Cut(DecideUnder(s, b, disposition, rationale, key, at, first, attempt, second), t, answer)
  }

  /** A call of resume under some faults. */
  ghost predicate Resumes(s: State, b: Binding, t: State, answer: Result<ReviewOutcome, SidecarError>)
  {
    exists first: bool, attempt, second: bool :: Cut(ResumeUnder(s, b, first, attempt, second), t, answer)
  }

  lemma EndsIsCut<R>(run: Run<R>, b: Binding, x: Trouble, t: State, answer: Result<R, SidecarError>)
    requires Ends(run, b, x, t, answer)
    ensures Cut(run, t, answer)
  {
  }

  lemma DecidesInDecides(s: State, b: Binding, disposition: Disposition, rationale: Option<Rationale>, key: Bytes,
                         at: nat, x: Trouble, t: State, answer: Result<ReviewOutcome, SidecarError>)
    requires DecidesIn(s, b, disposition, rationale, key, at, x, t, answer)
    ensures Decides(s, b, disposition, rationale, key, at, t, answer)
  {
    hide DecideUnder, Ends, Cut;
    if first: bool, attempt, second: bool :|
      Ends(DecideUnder(s, b, disposition, rationale, key, at, first, attempt, second), b, x, t, answer) {
      EndsIsCut(DecideUnder(s, b, disposition, rationale, key, at, first, attempt, second), b, x, t, answer);
    } else {
      CutStart(DecideUnder(s, b, disposition, rationale, key, at, false, Made(None), false), answer);
    }
  }

  lemma ResumesInResumes(s: State, b: Binding, x: Trouble, t: State, answer: Result<ReviewOutcome, SidecarError>)
    requires ResumesIn(s, b, x, t, answer)
    ensures Resumes(s, b, t, answer)
  {
    hide ResumeUnder, Ends, Cut;
    var first: bool, attempt, second: bool :| Ends(ResumeUnder(s, b, first, attempt, second), b, x, t, answer);
    EndsIsCut(ResumeUnder(s, b, first, attempt, second), b, x, t, answer);
  }

  lemma CutStart<R>(run: Run<R>, answer: Result<R, SidecarError>)
    requires run.states != [] && answer.Err?
    ensures Cut(run, run.states[0], answer)
  {
  }

  /** A run goes on where its first part ended. */
  lemma CutThen<A, B>(first: Run<A>, next: Run<B>, mid: State, t: State, answer: Result<B, SidecarError>)
    requires first.states != [] && mid == Last(first) && Starts(next, mid) && Cut(next, t, answer)
    ensures Cut(Then(first, next), t, answer)
  {
    var both := Then(first, next).states;
    if answer.Err? && t in next.states {
      var k :| 0 <= k < |next.states| && next.states[k] == t;
      assert both[|first.states| - 1 + k] == t;
    }
  }

  lemma CutFirst<A, B>(first: Run<A>, next: Run<B>, t: State, answer: Result<A, SidecarError>, error: SidecarError)
    requires first.states != [] && Cut(first, t, answer) && answer.Err?
    ensures Cut(Then(first, next), t, Err(error))
  {
  }

  /** An answer that is no error comes from the whole run. */
  lemma CutWhole<R>(run: Run<R>, t: State, answer: Result<R, SidecarError>)
    requires Cut(run, t, answer) && answer.Ok?
    ensures t == Last(run) && answer == run.answer
  {
  }

  // ---- The same with excuses ----

  lemma EndsStart<R>(run: Run<R>, b: Binding, x: Trouble, answer: Result<R, SidecarError>)
    requires run.states != [] && answer.Err? && Excused(b, x, run.states[0], answer.error)
    ensures Ends(run, b, x, run.states[0], answer)
  {
  }

  lemma EndsThen<A, B>(first: Run<A>, next: Run<B>, b: Binding, x: Trouble, mid: State, t: State,
                       answer: Result<B, SidecarError>)
    requires first.states != [] && mid == Last(first) && Starts(next, mid) && Ends(next, b, x, t, answer)
    ensures Ends(Then(first, next), b, x, t, answer)
  {
    var both := Then(first, next).states;
    if answer.Err? && t in next.states {
      var k :| 0 <= k < |next.states| && next.states[k] == t;
      assert both[|first.states| - 1 + k] == t;
    }
  }

  lemma EndsFirst<A, B>(first: Run<A>, next: Run<B>, b: Binding, x: Trouble, t: State, error: SidecarError)
    requires first.states != [] && t in first.states && Excused(b, x, t, error)
    ensures Ends(Then(first, next), b, x, t, Err(error))
  {
  }

  lemma EndsMore<R>(run: Run<R>, b: Binding, x: Trouble, y: Trouble, t: State, answer: Result<R, SidecarError>)
    requires Within(x, y) && Ends(run, b, x, t, answer)
    ensures Ends(run, b, y, t, answer)
  {
  }

  lemma SaidMore(x: Trouble, y: Trouble, error: SidecarError)
    requires Within(x, y) && Said(x, error)
    ensures Said(y, error)
  {
    var k :| |x.before.core| <= k < |x.after.core| && x.after.core[k] == error;
    assert y.after.core[k] == error;
  }

  lemma ObservesMore(s: State, b: Binding, x: Trouble, y: Trouble, t: State,
                     answer: Result<ReviewOutcome, SidecarError>)
    requires Within(x, y) && Observes(s, b, x, t, answer)
    ensures Observes(s, b, y, t, answer)
  {
    hide ObserveRun, Ends;
    var unreadable: bool :| (unreadable ==> RefsFailed(x)) && Ends(ObserveRun(s, b, unreadable), b, x, t, answer);
    EndsMore(ObserveRun(s, b, unreadable), b, x, y, t, answer);
  }

  lemma AttemptsMore(s: State, b: Binding, i: Intent, x: Trouble, y: Trouble, t: State,
                     answer: Result<(), SidecarError>)
    requires Within(x, y) && Attempts(s, b, i, x, t, answer)
    ensures Attempts(s, b, i, y, t, answer)
  {
    hide AttemptRun, IsMet;
    var attempt :| IsMet(attempt, x) && t == Last(AttemptRun(s, b, i, attempt))
                   && answer == AttemptRun(s, b, i, attempt).answer;
    MetMore(attempt, x, y);
  }

  lemma MetMore(attempt: Attempt, x: Trouble, y: Trouble)
    requires Within(x, y) && IsMet(attempt, x)
    ensures IsMet(attempt, y)
  {
    hide Said;
    match attempt {
      case NotMade(error) => if Said(x, error) { SaidMore(x, y, error); }
      case Made(lost) => if lost.Some? { SaidMore(x, y, lost.value); }
    }
  }

  lemma PublishesMore(s: State, b: Binding, i: Intent, resuming: bool, x: Trouble, y: Trouble, t: State,
                      answer: Result<ReviewOutcome, SidecarError>)
    requires Within(x, y) && Publishes(s, b, i, resuming, x, t, answer)
    ensures Publishes(s, b, i, resuming, y, t, answer)
  {
    hide PublishUnder, Ends, IsMet;
    var attempt, second: bool :| IsMet(attempt, x) && (second ==> RefsFailed(x))
      && Ends(PublishUnder(s, b, i, attempt, second, resuming), b, x, t, answer);
    MetMore(attempt, x, y);
    EndsMore(PublishUnder(s, b, i, attempt, second, resuming), b, x, y, t, answer);
  }

  lemma SettlesMore(s: State, b: Binding, i: Intent, resuming: bool, x: Trouble, y: Trouble, t: State,
                    answer: Result<ReviewOutcome, SidecarError>)
    requires Within(x, y) && Settles(s, b, i, resuming, x, t, answer)
    ensures Settles(s, b, i, resuming, y, t, answer)
  {
    hide SettleUnder, Ends, IsMet;
    var first: bool, attempt, second: bool :| IsMet(attempt, x) && (first || second ==> RefsFailed(x))
      && Ends(SettleUnder(s, b, i, first, attempt, second, resuming), b, x, t, answer);
    MetMore(attempt, x, y);
    EndsMore(SettleUnder(s, b, i, first, attempt, second, resuming), b, x, y, t, answer);
  }

  /** The base of a new intent could not be read. */
  predicate UnreadBase(b: Binding, s: State, x: Trouble, t: State, answer: Result<Intent, SidecarError>)
  {
    answer == Err(Storage) && t == s && b in s.journal && s.journal[b].intent == None && RefsFailed(x)
  }

  lemma EndsMoreOrUnread(run: Run<Intent>, b: Binding, s: State, x: Trouble, y: Trouble, t: State,
                         answer: Result<Intent, SidecarError>)
    requires Within(x, y) && (Ends(run, b, x, t, answer) || UnreadBase(b, s, x, t, answer))
    ensures Ends(run, b, y, t, answer) || UnreadBase(b, s, y, t, answer)
  {
  }

  lemma PowerExcuses(b: Binding, x: Trouble, t: State)
    requires x.dead
    ensures Excused(b, x, t, PowerLoss)
  {
  }

  lemma NotMadeIsMet(x: Trouble, error: SidecarError)
    requires (RefsFailed(x) && error == Storage) || (x.dead && error == PowerLoss)
    ensures IsMet(NotMade(error), x)
  {
  }

  lemma LastIsSaid(x: Trouble)
    requires Grows(x.before, x.after) && |x.after.core| > |x.before.core|
    ensures Said(x, x.after.core[|x.after.core| - 1])
  {
  }

  /** The observation ended somewhere, and the receipt query failed. */
  lemma ReplyOfObservationIsLost(s: State, b: Binding, x: Trouble, t: State,
                                 seen: Result<ReviewOutcome, SidecarError>, error: SidecarError)
    requires Observes(s, b, x, t, seen) && x.after.store > x.before.store
    ensures Observes(s, b, x, t, Err(error))
  {
    hide ObserveRun;
    var unreadable: bool :| (unreadable ==> RefsFailed(x)) && Ends(ObserveRun(s, b, unreadable), b, x, t, seen);
    assert t in ObserveRun(s, b, unreadable).states;
    assert Ends(ObserveRun(s, b, unreadable), b, x, t, Err(error));
  }

  // ---- Putting the parts of a call together ----

  lemma ObserveThenJudge(s: State, b: Binding, made: Result<(), SidecarError>, resuming: bool, x: Trouble,
                         mid: State, seen: Result<ReviewOutcome, SidecarError>,
                         t: State, answer: Result<ReviewOutcome, SidecarError>)
    requires Observes(s, b, x, mid, seen)
    requires if made.Ok? || seen.Err? then t == mid && answer == seen
             else Ends(TailRun(mid, b, made.error, seen, resuming), b, x, t, answer)
    ensures Judges(s, b, made, resuming, x, t, answer)
  {
    hide ObserveRun, TailRun, Excused;
    var second: bool :| (second ==> RefsFailed(x)) && Ends(ObserveRun(s, b, second), b, x, mid, seen);
    var after := ObserveRun(s, b, second);
    if made.Err? {
      var tail := TailRun(Last(after), b, made.error, after.answer, resuming);
      if mid == Last(after) && seen == after.answer {
        if seen.Err? {
          ErrorIsKept(mid, b, made.error, seen, resuming, x);
        }
        EndsThen(after, tail, b, x, mid, t, answer);
      } else {
        EndsFirst(after, tail, b, x, mid, seen.error);
      }
    }
    assert Ends(JudgeRun(s, b, made, second, resuming), b, x, t, answer);
  }

  lemma ErrorIsKept(s: State, b: Binding, failure: SidecarError, seen: Result<ReviewOutcome, SidecarError>,
                    resuming: bool, x: Trouble)
    requires seen.Err?
    ensures Ends(TailRun(s, b, failure, seen, resuming), b, x, s, seen)
  {
  }

  lemma AttemptThenJudge(s: State, b: Binding, i: Intent, resuming: bool, x: Trouble,
                         mid: State, made: Result<(), SidecarError>,
                         t: State, answer: Result<ReviewOutcome, SidecarError>)
    requires Attempts(s, b, i, x, mid, made)
    requires (t == mid && answer.Err? && Excused(b, x, t, answer.error)) || Judges(mid, b, made, resuming, x, t, answer)
    ensures Publishes(s, b, i, resuming, x, t, answer)
  {
    hide AttemptRun, JudgeRun, Ends, IsMet, Excused;
    var attempt :| IsMet(attempt, x) && mid == Last(AttemptRun(s, b, i, attempt))
                   && made == AttemptRun(s, b, i, attempt).answer;
    var second: bool := false;
    if Judges(mid, b, made, resuming, x, t, answer) {
      second :| (second ==> RefsFailed(x)) && Ends(JudgeRun(mid, b, made, second, resuming), b, x, t, answer);
    } else {
      EndsStart(JudgeRun(mid, b, made, second, resuming), b, x, answer);
    }
    EndsThen(AttemptRun(s, b, i, attempt), JudgeRun(mid, b, made, second, resuming), b, x, mid, t, answer);
    assert Ends(PublishUnder(s, b, i, attempt, second, resuming), b, x, t, answer);
  }

  lemma ObserveThenPublish(s: State, b: Binding, i: Intent, resuming: bool, x: Trouble,
                           mid: State, seen: Result<ReviewOutcome, SidecarError>,
                           t: State, answer: Result<ReviewOutcome, SidecarError>)
    requires Observes(s, b, x, mid, seen)
    requires if GoesOn(seen, resuming)
             then (t == mid && answer.Err? && Excused(b, x, t, answer.error))
                  || Publishes(mid, b, i, resuming, x, t, answer)
             else t == mid && answer == seen
    ensures Settles(s, b, i, resuming, x, t, answer)
  {
    hide ObserveRun, PublishUnder, Excused, IsMet;
    var first: bool :| (first ==> RefsFailed(x)) && Ends(ObserveRun(s, b, first), b, x, mid, seen);
    var attempt, second: bool := Made(None), false;
    assert IsMet(attempt, x) by { NoAttemptIsMet(x); }
    var observed := ObserveRun(s, b, first);
    if GoesOn(seen, resuming) {
      if Publishes(mid, b, i, resuming, x, t, answer) {
        attempt, second :| IsMet(attempt, x) && (second ==> RefsFailed(x))
          && Ends(PublishUnder(mid, b, i, attempt, second, resuming), b, x, t, answer);
      } else {
        EndsStart(PublishUnder(mid, b, i, attempt, second, resuming), b, x, answer);
      }
      EndsThen(observed, PublishUnder(mid, b, i, attempt, second, resuming), b, x, mid, t, answer);
    } else if seen.Err? && GoesOn(observed.answer, resuming) {
      EndsFirst(observed, PublishUnder(Last(observed), b, i, attempt, second, resuming), b, x, mid, seen.error);
    }
    assert Ends(SettleUnder(s, b, i, first, attempt, second, resuming), b, x, t, answer);
  }

  lemma NoAttemptIsMet(x: Trouble)
    ensures IsMet(Made(None), x)
  {
  }

  lemma SettlesIsResumes(s: State, b: Binding, x: Trouble, t: State, answer: Result<ReviewOutcome, SidecarError>)
    requires b in s.journal && s.journal[b].intent.Some? && Settles(s, b, s.journal[b].intent.value, true, x, t, answer)
    ensures ResumesIn(s, b, x, t, answer) && Resumes(s, b, t, answer)
  {
    hide SettleUnder, Ends, IsMet;
    var i := s.journal[b].intent.value;
    var first: bool, attempt, second: bool :| IsMet(attempt, x) && (first || second ==> RefsFailed(x))
      && Ends(SettleUnder(s, b, i, first, attempt, second, true), b, x, t, answer);
    assert Ends(ResumeUnder(s, b, first, attempt, second), b, x, t, answer);
    ResumesInResumes(s, b, x, t, answer);
  }

  lemma ObservesIsResumes(s: State, b: Binding, x: Trouble, t: State, answer: Result<ReviewOutcome, SidecarError>)
    requires (b !in s.journal || s.journal[b].intent == None) && Observes(s, b, x, t, answer)
    ensures ResumesIn(s, b, x, t, answer) && Resumes(s, b, t, answer)
  {
    hide ObserveRun, Ends;
    var first: bool :| (first ==> RefsFailed(x)) && Ends(ObserveRun(s, b, first), b, x, t, answer);
    NoAttemptIsMet(x);
    assert Ends(ResumeUnder(s, b, first, Made(None), false), b, x, t, answer);
    ResumesInResumes(s, b, x, t, answer);
  }

  lemma RegisterThenSettle(s: State, b: Binding, disposition: Disposition, rationale: Option<Rationale>, key: Bytes,
                           at: nat, x: Trouble, mid: State, registered: Result<Intent, SidecarError>,
                           t: State, answer: Result<ReviewOutcome, SidecarError>)
    requires b in s.journal && ValidKey(key) && ValidPrivateRationale(rationale)
    requires || Ends(IntentRun(s, b, disposition, key, at), b, x, mid, registered)
             || UnreadBase(b, s, x, mid, registered)
    requires if registered.Err? then t == mid && answer == Err(registered.error)
             else Settles(mid, b, registered.value, false, x, t, answer)
    ensures DecidesIn(s, b, disposition, rationale, key, at, x, t, answer)
  {
    hide SettleUnder, IntentRun, Excused, IsMet;
    var run := IntentRun(s, b, disposition, key, at);
    var first: bool, attempt, second: bool := false, Made(None), false;
    assert IsMet(attempt, x) by { NoAttemptIsMet(x); }
    IntentRunStarts(s, b, disposition, key, at);
    if registered.Ok? {
      first, attempt, second :| IsMet(attempt, x) && (first || second ==> RefsFailed(x))
        && Ends(SettleUnder(mid, b, registered.value, first, attempt, second, false), b, x, t, answer);
      EndsThen(run, SettleUnder(mid, b, registered.value, first, attempt, second, false), b, x, mid, t, answer);
      assert Ends(DecideUnder(s, b, disposition, rationale, key, at, first, attempt, second), b, x, t, answer);
    } else if Ends(run, b, x, mid, registered) {
      if run.answer.Ok? {
        EndsFirst(run, SettleUnder(Last(run), b, run.answer.value, first, attempt, second, false), b, x, mid,
            registered.error);
      }
      assert Ends(DecideUnder(s, b, disposition, rationale, key, at, first, attempt, second), b, x, t, answer);
    }
  }

  lemma IntentRunStarts(s: State, b: Binding, disposition: Disposition, key: Bytes, at: nat)
    requires b in s.journal
    ensures Starts(IntentRun(s, b, disposition, key, at), s)
    ensures IntentRun(s, b, disposition, key, at).answer.Err? ==> IntentRun(s, b, disposition, key, at).states == [s]
  {
  }

  lemma TailStays(s: State, b: Binding, made: Result<(), SidecarError>, seen: Result<ReviewOutcome, SidecarError>,
                  resuming: bool, x: Trouble)
    requires made.Err? && seen.Ok? && seen.value.NotCommitted? && !IsTerminal(seen.value.state) ==>
               seen.value.state != PendingReview && (!resuming || made.error == Storage)
    ensures made.Err? && seen.Ok? ==> Ends(TailRun(s, b, made.error, seen, resuming), b, x, s, seen)
  {
  }

  /** The attempt and the observation after it, where the power went or nothing is left to record. */
  lemma ObservedIsPublished(s: State, b: Binding, i: Intent, resuming: bool, x: Trouble,
                            mid: State, made: Result<(), SidecarError>, t: State,
                            seen: Result<ReviewOutcome, SidecarError>)
    requires Attempts(s, b, i, x, mid, made)
    requires if made == Err(PowerLoss) then x.dead && t == mid && seen == Err(PowerLoss)
             else Observes(mid, b, x, t, seen)
    requires made.Err? && seen.Ok? && seen.value.NotCommitted? && !IsTerminal(seen.value.state) ==>
               seen.value.state != PendingReview && (!resuming || made.error == Storage)
    ensures Publishes(s, b, i, resuming, x, t, seen)
  {
    hide Attempts, Observes, Judges, Publishes, TailRun, Ends, Excused;
    if made == Err(PowerLoss) {
      PowerExcuses(b, x, t);
    } else {
      TailStays(t, b, made, seen, resuming, x);
      ObserveThenJudge(mid, b, made, resuming, x, t, seen, t, seen);
    }
    AttemptThenJudge(s, b, i, resuming, x, mid, made, t, seen);
  }

  /** The attempt, the observation after it, and what was made of the failure. */
  lemma FailureIsPublished(s: State, b: Binding, i: Intent, resuming: bool, x: Trouble, z: Trouble, y: Trouble,
                           mid: State, made: Result<(), SidecarError>,
                           after: State, seen: Result<ReviewOutcome, SidecarError>,
                           t: State, answer: Result<ReviewOutcome, SidecarError>)
    requires Attempts(s, b, i, x, mid, made) && made.Err? && Observes(mid, b, x, after, seen) && b in after.journal
    requires seen.Ok? && seen.value.NotCommitted? && !IsTerminal(seen.value.state)
    requires seen.value.state == PendingReview || (resuming && made.error != Storage)
    requires Ends(FailedRun(after, b, made.error), b, z, t, answer) && Within(x, y) && Within(z, y)
    ensures Publishes(s, b, i, resuming, y, t, answer)
  {
    hide Attempts, Observes, Judges, Publishes, Ends, Within, FailedRun;
    assert TailRun(after, b, made.error, seen, resuming) == FailedRun(after, b, made.error);
    EndsMore(FailedRun(after, b, made.error), b, z, y, t, answer);
    AttemptsMore(s, b, i, x, y, mid, made);
    ObservesMore(mid, b, x, y, after, seen);
    ObserveThenJudge(mid, b, made, resuming, y, after, seen, t, answer);
    AttemptThenJudge(s, b, i, resuming, y, mid, made, t, answer);
  }

  lemma GoneOnSettles(s: State, b: Binding, i: Intent, x: Trouble, z: Trouble, y: Trouble,
                      mid: State, seen: Result<ReviewOutcome, SidecarError>,
                      t: State, answer: Result<ReviewOutcome, SidecarError>)
    requires Observes(s, b, x, mid, seen) && GoesOn(seen, false) && Publishes(mid, b, i, false, z, t, answer)
    requires Within(x, y) && Within(z, y)
    ensures Settles(s, b, i, false, y, t, answer)
  {
    hide Observes, Settles, Publishes, Within;
    ObservesMore(s, b, x, y, mid, seen);
    PublishesMore(mid, b, i, false, z, y, t, answer);
    ObserveThenPublish(s, b, i, false, y, mid, seen, t, answer);
  }

  /** Observations never touch intents. */
  lemma ObservationKeepsIntents(s: State, b: Binding, x: Trouble, t: State, seen: Result<ReviewOutcome, SidecarError>)
    requires Observes(s, b, x, t, seen)
    ensures b in s.journal <==> b in t.journal
    ensures b in s.journal ==> t.journal[b].intent == s.journal[b].intent
  {
    hide ReconcileRun, Excused;
    var unreadable: bool :| Ends(ObserveRun(s, b, unreadable), b, x, t, seen);
    ReconcileMarks(s, b);
  }

  lemma ReconcileMarks(s: State, b: Binding)
    ensures var run := ReconcileRun(s, b);
            run.states == [s]
            || (b in s.journal && |run.states| == 2
                && (run.states[1] == Marked(s, b, TerminalDenial) || run.states[1] == Marked(s, b, DecisionCommitted)))
  {
  }

  /** A terminal answer or an error of the first observation is the answer of the resumption. */
  lemma SeenResumes(s: State, b: Binding, x: Trouble, t: State, seen: Result<ReviewOutcome, SidecarError>)
    requires Observes(s, b, x, t, seen) && !GoesOn(seen, true)
    ensures ResumesIn(s, b, x, t, seen) && Resumes(s, b, t, seen)
  {
    hide Observes, Resumes, ResumesIn, Settles;
    if b in s.journal && s.journal[b].intent.Some? {
      ObserveThenPublish(s, b, s.journal[b].intent.value, true, x, t, seen, t, seen);
      SettlesIsResumes(s, b, x, t, seen);
    } else {
      ObservesIsResumes(s, b, x, t, seen);
    }
  }

  /** The journal failed after the first observation. */
  lemma ErrorResumes(s: State, b: Binding, x: Trouble, y: Trouble, t: State, seen: Result<ReviewOutcome, SidecarError>,
                     error: SidecarError)
    requires Observes(s, b, x, t, seen) && Within(x, y) && y.after.store > y.before.store
    ensures ResumesIn(s, b, y, t, Err(error)) && Resumes(s, b, t, Err(error))
  {
    hide Observes, Resumes, ResumesIn, Settles;
    ObservesMore(s, b, x, y, t, seen);
    ReplyOfObservationIsLost(s, b, y, t, seen, error);
    SeenResumes(s, b, y, t, Err(error));
  }

  lemma GoneOnResumes(s: State, b: Binding, i: Intent, x: Trouble, z: Trouble, y: Trouble,
                      mid: State, seen: Result<ReviewOutcome, SidecarError>,
                      t: State, answer: Result<ReviewOutcome, SidecarError>)
    requires b in mid.journal && mid.journal[b].intent == Some(i)
    requires Observes(s, b, x, mid, seen) && GoesOn(seen, true) && Publishes(mid, b, i, true, z, t, answer)
    requires Within(x, y) && Within(z, y)
    ensures ResumesIn(s, b, y, t, answer) && Resumes(s, b, t, answer)
  {
    hide Observes, Resumes, ResumesIn, Settles, Publishes, Within;
    ObservationKeepsIntents(s, b, x, mid, seen);
    ObservesMore(s, b, x, y, mid, seen);
    PublishesMore(mid, b, i, true, z, y, t, answer);
    ObserveThenPublish(s, b, i, true, y, mid, seen, t, answer);
    SettlesIsResumes(s, b, y, t, answer);
  }

  lemma EarlyDecides(s: State, b: Binding, disposition: Disposition, rationale: Option<Rationale>, key: Bytes, at: nat,
                     x: Trouble, error: SidecarError)
    requires || ((!ValidKey(key) || !ValidPrivateRationale(rationale)) && error == InvalidArgument)
             || (ValidKey(key) && ValidPrivateRationale(rationale) && b !in s.journal && error == ReviewNotFound)
             || x.after.store > x.before.store
    ensures DecidesIn(s, b, disposition, rationale, key, at, x, s, Err(error))
  {
    hide SettleUnder;
    NoAttemptIsMet(x);
    assert Ends(DecideUnder(s, b, disposition, rationale, key, at, false, Made(None), false), b, x, s, Err(error)) by {
      if x.after.store > x.before.store {
        EndsStart(DecideUnder(s, b, disposition, rationale, key, at, false, Made(None), false), b, x, Err(error));
      }
    }
  }

  lemma ErrorObserves(s: State, b: Binding, x: Trouble, error: SidecarError)
    requires (b !in s.journal && error == ReviewNotFound) || x.after.store > x.before.store
    ensures Observes(s, b, x, s, Err(error))
  {
    if x.after.store > x.before.store {
      EndsStart(ObserveRun(s, b, false), b, x, Err(error));
    }
    assert Ends(ObserveRun(s, b, false), b, x, s, Err(error));
  }

  /** The attempt failed before it was made, or its reply was lost: the error says which calls failed. */
  lemma ReplyIsLost(s: State, b: Binding, i: Intent, x: Trouble, t: State, error: SidecarError)
    requires t == s || (s.reflog != [] && Head(s) == b.expected && t == Extended(s, i))
    requires Said(x, error) || (t == s && IsMet(NotMade(error), x))
    ensures Attempts(s, b, i, x, t, Err(error))
  {
    if t == s {
      assert AttemptRun(s, b, i, NotMade(error)) == Stay(s, Err(error));
      assert IsMet(NotMade(error), x);
    } else {
      assert AttemptRun(s, b, i, Made(Some(error))) == Run([s, t], Err(error));
      assert IsMet(Made(Some(error)), x);
    }
  }

  lemma AttemptEnds(s: State, b: Binding, i: Intent, x: Trouble, t: State, made: Result<(), SidecarError>)
    requires Attempts(s, b, i, x, t, made)
    ensures t == s || (s.reflog != [] && Head(s) == b.expected && t == Extended(s, i))
  {
  }

  lemma ReplyArrives(s: State, b: Binding, i: Intent, x: Trouble)
    ensures if s.reflog != [] && Head(s) == b.expected then Attempts(s, b, i, x, Extended(s, i), Ok(()))
            else Attempts(s, b, i, x, s, Err(StaleBase))
  {
    NoAttemptIsMet(x);
    var run := AttemptRun(s, b, i, Made(None));
    assert Attempts(s, b, i, x, Last(run), run.answer);
  }

  lemma UnreadableObserves(s: State, b: Binding, x: Trouble, t: State, answer: Result<ReviewOutcome, SidecarError>)
    requires RefsFailed(x) && Ends(MarkUnknownRun(s, b), b, x, t, answer)
    ensures Observes(s, b, x, t, answer)
  {
    assert ObserveRun(s, b, true) == MarkUnknownRun(s, b);
  }

  lemma ReadableObserves(s: State, b: Binding, x: Trouble, t: State, answer: Result<ReviewOutcome, SidecarError>)
    requires Ends(ReconcileRun(s, b), b, x, t, answer)
    ensures Observes(s, b, x, t, answer)
  {
    assert ObserveRun(s, b, false) == ReconcileRun(s, b);
  }
}
