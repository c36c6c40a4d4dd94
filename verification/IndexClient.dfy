/** The index client of pkg/fpindex/client.go: one connection, its request and response counters, and transactions.
    Cancellation, the network and the server act as they like between any two steps. */
module FpIndex {
  import opened Results
  import opened IndexProtocol
  import opened HelpfulServer

  // ---- The environment ----

  /** What else may be relied on: in a quiet world requests of a connection take no effect once a newer one exists; a
      keeping server leaves a transaction open when it refuses a request; in a helpful world the server answers the newest
      connection as soon as it can and as well as it may, the network and the database work, and no new rows come. */
  datatype Mode = Mode(quiet: bool, keeping: bool, helpful: bool)

  /** What an answer to `request` says about the connection, taken from `a` to `b`. */
  ghost predicate Replied(mode: Mode, s: State, t: State, a: Session, request: Request, answer: Answer, b: Session) {
    if answer.Good? then
      match request
      case MaxId =>
        b.open == a.open &&
        if answer.value < ID_LIMIT then b.last == answer.value && s.commits <= b.seen <= t.commits
        else b.last == a.last && b.seen == a.seen
      case Begin => a.open.None? && b.open == Some([]) && b.last == a.last && b.seen == a.seen
      case Insert(id) => a.open.Some? && b.open == Some(a.open.value + [id]) && b.last == a.last && b.seen == a.seen
      case Commit => a.open.Some? && b.open.None? && forall id :: id in a.open.value ==> id in t.committed
      case Rollback => b.open.None? && b.last == a.last && b.seen == a.seen
      case Other => b.open == a.open && b.last == a.last && b.seen == a.seen
    else
      b.last == a.last && b.seen == a.seen && (b.open == a.open || (b.open.None? && !mode.keeping))
  }

  /** What the environment may have done between `s` and `t`, from the point of view of one connection. */
  ghost predicate Answers(mode: Mode, s: State, t: State, a: Session, b: Session) {
    && |b.answers| == |a.answers| + 1 && |a.answers| < |a.sent| && a.answers == b.answers[..|a.answers|] && b.sent == a.sent
    && Replied(mode, s, t, a, a.sent[|a.answers|], b.answers[|a.answers|], b)
  }

  ghost predicate SessionLater(mode: Mode, s: State, t: State, k: nat)
    requires k < |s.sessions| == |t.sessions|
  {
    var a, b := s.sessions[k], t.sessions[k];
    && b.sent == a.sent && a.answers <= b.answers && |b.answers| <= |b.sent|
    && (|a.answers| == |a.sent| ==> b == a)
    && (|a.answers| + 1 == |a.sent| ==> b == a || Answers(mode, s, t, a, b))
  }

  /** The newest connection waits for the answer to a commit. */
  ghost predicate Committing(s: State) {
    s.sessions != [] && HasCommit(s.sessions[|s.sessions| - 1])
  }

  ghost predicate HasCommit(a: Session) {
    exists i :: CommitWaits(a, i)
  }

  predicate CommitWaits(a: Session, i: int) {
    |a.answers| <= i < |a.sent| && a.sent[i].Commit?
  }

  /** In a quiet world nothing is committed unless the newest connection commits. */
  ghost predicate Calm(mode: Mode, s: State, t: State) {
    mode.quiet && !Committing(s) ==> t.committed == s.committed && t.commits == s.commits && !Committing(t)
  }

  /** Rows and commits stay. */
  ghost predicate Grown(s: State, t: State) {
    s.table <= t.table && s.committed <= t.committed && s.commits <= t.commits && |t.sessions| == |s.sessions|
  }

  ghost predicate Later(mode: Mode, s: State, t: State) {
    Grown(s, t) && Calm(mode, s, t) && forall k :: 0 <= k < |s.sessions| ==> SessionLater(mode, s, t, k)
  }

  /** The server answers what it received, in order. */
  ghost predicate Sound(s: State) {
    forall k :: 0 <= k < |s.sessions| ==> |s.sessions[k].answers| <= |s.sessions[k].sent|
  }

  /** The state is one that a run leads to, in a quiet world without a commit being overtaken. */
  ghost predicate Kept(mode: Mode, s: State) {
    Reachable(s) && (mode.quiet ==> Undisturbed(s))
  }

  lemma KeptSound(mode: Mode, s: State)
    requires Kept(mode, s)
    ensures Sound(s)
  {
    hide Reachable, Prefix, NoDuplicates, CommitsPrepared, Undisturbed;
    ReachableInv(s);
    forall k | 0 <= k < |s.sessions|
      ensures |s.sessions[k].answers| <= |s.sessions[k].sent|
    {
      assert SessionInv(s, s.sessions[k]);
    }
  }

  /** The table and the server. */
  class World {
    var s: State
    const mode: Mode

    constructor (table: seq<nat>, mode: Mode)
      requires Ascending(table)
      ensures Sound(s) && Kept(mode, s) && s == Initially(table) && this.mode == mode
    {
      ReachableInitially(table);
      s := Initially(table);
      this.mode := mode;
    }

    /** New rows appear and the server answers, in any order and any number of times. */
    method Elapse()
      requires Sound(s)
      modifies this
      ensures Sound(s) && Later(mode, old(s), s)
      ensures Kept(mode, old(s)) ==> Kept(mode, s)
      ensures mode.helpful ==> s == Settled(old(s))
    {
      hide Kept, Later, Sound;
      if mode.helpful {
        Settle();
        return;
      }
      var steps: int := *;
      LaterReflexive(mode, s);
      var i := 0;
      while i < steps
        invariant Sound(s) && Later(mode, old(s), s)
        invariant Kept(mode, old(s)) ==> Kept(mode, s)
      {
        i := i + 1;
        ghost var before := s;
        var id: int, k: int, answer: Answer, keep: bool := *, *, *, *;
        if * {
          if id > Max(s.table) {
            NewRowLater(mode, s, id);
            s := NewRow(s, id);
            LaterTransitive(mode, old(s), before, s);
          }
        } else if 0 <= k < |s.sessions| && (mode.quiet ==> k == |s.sessions| - 1) && (mode.keeping ==> keep) &&
                  MayAnswer(s, s.sessions[k], answer) {
          AnswerLater(mode, s, k, answer, keep);
          s := AnswerOn(s, k, answer, keep);
          LaterTransitive(mode, old(s), before, s);
        }
      }
    }

    /** The server answers what waits on the newest connection, as well as it may. */
    method Settle()
      requires Sound(s)
      modifies this
      ensures Sound(s) && Later(mode, old(s), s)
      ensures Kept(mode, old(s)) ==> Kept(mode, s)
      ensures s == Settled(old(s))
    {
      hide Kept, Later, Sound, Idle, Backlog, AnswerBest;
      LaterReflexive(mode, s);
      while !Idle(s)
        invariant Sound(s) && Later(mode, old(s), s)
        invariant Kept(mode, old(s)) ==> Kept(mode, s)
        invariant Settled(s) == Settled(old(s))
        decreases Backlog(s)
      {
        ghost var before := s;
        AnswerBestNext(s);
        AnswerBestLater(mode, s);
        s := AnswerBest(s);
        LaterTransitive(mode, old(s), before, s);
      }
    }
  }

  lemma LaterReflexive(mode: Mode, s: State)
    requires Sound(s)
    ensures Later(mode, s, s)
  {
    hide Committing;
  }

  lemma NewRowLater(mode: Mode, s: State, id: nat)
    requires Sound(s) && id > Max(s.table)
    ensures Sound(NewRow(s, id)) && Later(mode, s, NewRow(s, id))
    ensures Kept(mode, s) ==> Kept(mode, NewRow(s, id))
  {
    hide Reachable, Max;
    if Reachable(s) {
      assert Step(s, NewRow(s, id));
      ReachableStep(s, NewRow(s, id));
    }
  }

  lemma AnswerKept(mode: Mode, s: State, k: nat, answer: Answer, keep: bool)
    requires k < |s.sessions| && MayAnswer(s, s.sessions[k], answer)
    requires mode.quiet ==> k == |s.sessions| - 1
    ensures Kept(mode, s) ==> Kept(mode, AnswerOn(s, k, answer, keep))
  {
    hide Reachable, Inv, Undisturbed, MayAnswer, AnswerOn;
    if Kept(mode, s) {
      assert Step(s, AnswerOn(s, k, answer, keep));
      ReachableStep(s, AnswerOn(s, k, answer, keep));
      if mode.quiet {
        ReachableInv(s);
        AnswerKeepsUndisturbed(s, k, answer, keep);
      }
    }
  }

  lemma AnswerOnSession(mode: Mode, s: State, k: nat, answer: Answer, keep: bool)
    requires k < |s.sessions| && MayAnswer(s, s.sessions[k], answer) && (mode.keeping ==> keep)
    ensures var t := AnswerOn(s, k, answer, keep);
            && Grown(s, t) && t.table == s.table
            && Answers(mode, s, t, s.sessions[k], t.sessions[k])
            && (!s.sessions[k].sent[|s.sessions[k].answers|].Commit? ==> t.committed == s.committed && t.commits == s.commits)
            && forall i :: 0 <= i < |s.sessions| && i != k ==> t.sessions[i] == s.sessions[i]
  {
    hide Max;
  }

  lemma AnswerLater(mode: Mode, s: State, k: nat, answer: Answer, keep: bool)
    requires Sound(s) && k < |s.sessions| && MayAnswer(s, s.sessions[k], answer)
    requires (mode.quiet ==> k == |s.sessions| - 1) && (mode.keeping ==> keep)
    ensures Sound(AnswerOn(s, k, answer, keep)) && Later(mode, s, AnswerOn(s, k, answer, keep))
    ensures Kept(mode, s) ==> Kept(mode, AnswerOn(s, k, answer, keep))
  {
    hide Kept, AnswerOn, Replied, Committing;
    AnswerKept(mode, s, k, answer, keep);
    AnswerOnSession(mode, s, k, answer, keep);
    var t := AnswerOn(s, k, answer, keep);
    if mode.quiet && !Committing(s) {
      StillNotCommitting(s, t, k);
    }
  }

  lemma AnswerBestLater(mode: Mode, s: State)
    requires Sound(s) && !Idle(s)
    ensures Sound(AnswerBest(s)) && Later(mode, s, AnswerBest(s))
    ensures Kept(mode, s) ==> Kept(mode, AnswerBest(s))
  {
    hide Kept, Later, Sound, AnswerOn, MayAnswer, Best, Max;
    var k := |s.sessions| - 1;
    BestMay(s, s.sessions[k]);
    AnswerLater(mode, s, k, Best(s, s.sessions[k]), true);
  }

  lemma StillNotCommitting(s: State, t: State, k: nat)
    requires k == |s.sessions| - 1 == |t.sessions| - 1 && Waiting(s.sessions[k]) && !Committing(s)
    requires t.sessions[k].sent == s.sessions[k].sent && |t.sessions[k].answers| == |s.sessions[k].answers| + 1
    ensures !s.sessions[k].sent[|s.sessions[k].answers|].Commit? && !Committing(t)
  {
    var a, b := s.sessions[k], t.sessions[k];
    assert !CommitWaits(a, |a.answers|);
    forall i
      ensures !CommitWaits(b, i)
    {
      assert !CommitWaits(a, i);
    }
  }

  lemma LaterTransitive(mode: Mode, s: State, t: State, u: State)
    requires Later(mode, s, t) && Later(mode, t, u)
    ensures Later(mode, s, u)
  {
    hide Committing;
    forall k | 0 <= k < |s.sessions|
      ensures SessionLater(mode, s, u, k)
    {
      assert SessionLater(mode, s, t, k) && SessionLater(mode, t, u, k);
      AnswersThen(mode, s, t, u, k);
    }
  }

  lemma AnswersThen(mode: Mode, s: State, t: State, u: State, k: nat)
    requires k < |s.sessions| == |t.sessions| == |u.sessions|
    requires s.committed <= t.committed <= u.committed && s.commits <= t.commits <= u.commits
    requires SessionLater(mode, s, t, k) && SessionLater(mode, t, u, k)
    ensures SessionLater(mode, s, u, k)
  {
    var a, b, c := s.sessions[k], t.sessions[k], u.sessions[k];
    assert forall id :: id in t.committed ==> id in u.committed;
  }

  /** A context is done once it is cancelled or its deadline has passed, and stays so; a patient one does not come to it. */
  class Context {
    const patient: bool
    var done: bool

    constructor (patient: bool)
      ensures this.patient == patient && !done
    {
      this.patient := patient;
      done := false;
    }

    method Err() returns (err: bool)
      modifies this
      ensures err == done && (old(done) ==> done) && (patient ==> done == old(done))
    {
      if * {
        done := done || !patient;
      }
      err := done;
    }
  }

  // ---- The counters of a connection ----

  datatype ClientError =
    ContextDone | WriteFailed | ReadFailed | ServerError | InvalidResponse | TxDone | TxActive | CloseFailed | NotANumber

  /** The fields that decide whether a connection is usable. */
  datatype Link = Link(closed: bool, hasError: bool, numRequests: nat, numResponses: nat)

  predicate LinkOK(l: Link) { !l.closed && !l.hasError && l.numRequests == l.numResponses }

  /** What one call of sendRequest does to them, by its result: a response that was consumed is counted, one that never
      came widens the gap, and an I/O error or a malformed response is remembered. */
  predicate Sends(l: Link, m: Link, r: Result<nat, ClientError>) {
    match r
    case Success(_) => m == l.(numRequests := l.numRequests + 1, numResponses := l.numResponses + 1)
    case Failure(e) =>
      match e
      case ServerError => m == l.(numRequests := l.numRequests + 1, numResponses := l.numResponses + 1)
      case WriteFailed => m == l.(hasError := true)
      case ReadFailed => m == l.(hasError := true, numRequests := l.numRequests + 1)
      case InvalidResponse => m == l.(hasError := true, numRequests := l.numRequests + 1)
      case ContextDone => m == l || m == l.(numRequests := l.numRequests + 1)
      case TxDone => m == l
      case TxActive => false
      case CloseFailed => false
      case NotANumber => false
  }

  ghost predicate Happens(l: Link, m: Link) {
    exists r :: Sends(l, m, r)
  }

  /** Closing does not touch the counters. */
  ghost predicate Closes(l: Link, m: Link) {
    m == l || m == l.(closed := true)
  }

  /** A run of requests and closes. */
  ghost predicate Linked(run: seq<Link>) {
    run != [] && forall i :: 0 <= i < |run| - 1 ==> Happens(run[i], run[i + 1]) || Closes(run[i], run[i + 1])
  }

  ghost predicate Leads(l: Link, m: Link) {
    exists run :: Linked(run) && run[0] == l && run[|run| - 1] == m
  }

  /** Over every run the gap between requests and responses never shrinks, so a connection that is not OK never is again. */
  lemma {:induction false} GapNeverShrinks(run: seq<Link>)
    requires Linked(run) && run[0].numResponses <= run[0].numRequests
    ensures var l, m := run[0], run[|run| - 1];
            && m.numResponses <= m.numRequests
            && m.numRequests - m.numResponses >= l.numRequests - l.numResponses
            && (!LinkOK(l) ==> !LinkOK(m))
    decreases |run|
  {
    if |run| > 1 {
      var n := |run| - 1;
      GapNeverShrinks(run[..n]);
      assert run[..n][n - 1] == run[n - 1];
      assert Happens(run[n - 1], run[n - 1 + 1]) || Closes(run[n - 1], run[n - 1 + 1]);
    }
  }

  lemma LeadsGap(l: Link, m: Link)
    requires Leads(l, m) && l.numResponses <= l.numRequests
    ensures m.numResponses <= m.numRequests && m.numRequests - m.numResponses >= l.numRequests - l.numResponses
    ensures !LinkOK(l) ==> !LinkOK(m)
  {
    hide Happens, Closes;
    var run :| Linked(run) && run[0] == l && run[|run| - 1] == m;
    GapNeverShrinks(run);
  }

  lemma LeadsSends(l: Link, m: Link, r: Result<nat, ClientError>)
    requires Sends(l, m, r)
    ensures Leads(l, m)
  {
    assert Happens(l, m);
    assert Linked([l, m]);
  }

  lemma LeadsCloses(l: Link, m: Link)
    requires Closes(l, m)
    ensures Leads(l, m)
  {
    assert Linked([l, m]);
  }

  lemma LeadsOn(l: Link, m: Link, n: Link)
    requires Leads(l, m) && Leads(m, n)
    ensures Leads(l, n)
  {
    hide Happens, Closes;
    var run :| Linked(run) && run[0] == l && run[|run| - 1] == m;
    var tail :| Linked(tail) && tail[0] == m && tail[|tail| - 1] == n;
    var all := run + tail[1..];
    forall i | 0 <= i < |all| - 1
      ensures Happens(all[i], all[i + 1]) || Closes(all[i], all[i + 1])
    {
      if i >= |run| - 1 {
        assert all[i] == tail[i - (|run| - 1)] && all[i + 1] == tail[i - (|run| - 1) + 1];
      }
    }
    assert Linked(all);
  }

  // ---- What the client knows of its connection ----

  /** Connection `k` has received nothing new and may have answered. */
  ghost predicate Watched(s: State, t: State, k: nat) {
    && k < |s.sessions| == |t.sessions|
    && t.sessions[k].sent == s.sessions[k].sent
    && s.sessions[k].answers <= t.sessions[k].answers && |t.sessions[k].answers| <= |t.sessions[k].sent|
  }

  lemma LaterWatched(mode: Mode, s: State, t: State, k: nat)
    requires Later(mode, s, t) && k < |s.sessions|
    ensures Sound(t) && Watched(s, t, k) && Grown(s, t) && Calm(mode, s, t)
    ensures !Waiting(s.sessions[k]) && |s.sessions[k].answers| <= |s.sessions[k].sent| ==> t.sessions[k] == s.sessions[k]
  {
    hide Calm, Answers;
    assert SessionLater(mode, s, t, k);
    forall i | 0 <= i < |t.sessions|
      ensures |t.sessions[i].answers| <= |t.sessions[i].sent|
    {
      assert SessionLater(mode, s, t, i);
    }
  }

  lemma SoundAt(s: State, k: nat)
    requires Sound(s) && k < |s.sessions|
    ensures |s.sessions[k].answers| <= |s.sessions[k].sent|
  {
  }

  /** Whether the updater may send this on connection `k`: it is the newest, the request comes in order, and a commit in a
      quiet world while the connection was told what is still the largest id. */
  ghost predicate MayRequest(mode: Mode, s: State, k: nat, request: Request) {
    && k == |s.sessions| - 1 && MaySend(s.sessions[k], s.table, request)
    && (mode.quiet && request.Commit? ==> s.sessions[k].seen == s.commits)
  }

  lemma NextRowsGrow(table: seq<nat>, after: seq<nat>, last: nat, batch: seq<nat>)
    requires NextRows(table, last, batch) && batch != [] && table <= after
    ensures NextRows(after, last, batch)
  {
    var p: nat :| NextRowsAt(table, last, batch, p);
    assert NextRowsAt(after, last, batch, p);
  }

  lemma IdleNotCommitting(s: State)
    requires s.sessions != [] && !Waiting(s.sessions[|s.sessions| - 1])
    ensures !Committing(s)
  {
  }

  /** What may be sent may still be sent when time has passed. */
  lemma MayLater(mode: Mode, s: State, t: State, k: nat, request: Request)
    requires Sound(s) && Later(mode, s, t) && k < |s.sessions| && MayRequest(mode, s, k, request)
    ensures MayRequest(mode, t, k, request)
  {
    hide NextRows, Committing;
    LaterWatched(mode, s, t, k);
    if !Waiting(s.sessions[k]) {
      IdleNotCommitting(s);
      var a := s.sessions[k];
      match request {
        case Insert(id) => NextRowsGrow(s.table, t.table, a.last, a.open.value + [id]);
        case Commit => NextRowsGrow(s.table, t.table, a.last, a.open.value);
        case _ =>
      }
    }
  }

  /** Receiving a request that is in order leads from a state of a run to the next. */
  lemma ReceivedKept(mode: Mode, s: State, k: nat, request: Request)
    requires Kept(mode, s) && MayRequest(mode, s, k, request)
    ensures Kept(mode, Receive(s, k, request))
  {
    hide Reachable, Undisturbed, MaySend;
    assert Step(s, Receive(s, k, request));
    ReachableStep(s, Receive(s, k, request));
    if mode.quiet {
      ReceiveKeepsUndisturbed(s, k, request);
    }
  }

  lemma ReceivedIs(mode: Mode, s0: State, at: State, k: nat, request: Request)
    requires Sound(s0) && Later(mode, s0, at) && k < |s0.sessions|
    ensures k < |at.sessions| && Sound(Receive(at, k, request))
    ensures Kept(mode, at) && MayRequest(mode, s0, k, request) ==> Kept(mode, Receive(at, k, request))
  {
    hide Later, Kept, MayRequest;
    LaterWatched(mode, s0, at, k);
    if Kept(mode, at) && MayRequest(mode, s0, k, request) {
      MayLater(mode, s0, at, k, request);
      ReceivedKept(mode, at, k, request);
    }
  }

  /** Any request but a commit leaves a quiet world calm. */
  lemma ReceivedCalm(mode: Mode, s: State, k: nat, request: Request)
    requires k < |s.sessions| && !request.Commit?
    ensures Calm(mode, s, Receive(s, k, request))
  {
    if !Committing(s) {
      var t := Receive(s, k, request);
      var a, b := s.sessions[|s.sessions| - 1], t.sessions[|s.sessions| - 1];
      forall i
        ensures !CommitWaits(b, i)
      {
        assert !CommitWaits(a, i);
      }
    }
  }

  /** `request` was the next on connection `k`, which was idle, and `answer` was the answer. */
  ghost predicate Exchanged(mode: Mode, s: State, t: State, k: nat, request: Request, answer: Answer) {
    && k < |s.sessions| && Grown(s, t)
    && t.sessions[k].sent == s.sessions[k].sent + [request]
    && t.sessions[k].answers == s.sessions[k].answers + [answer]
    && |t.sessions[k].answers| == |t.sessions[k].sent|
    && Replied(mode, s, t, s.sessions[k], request, answer, t.sessions[k])
  }

  /** Nothing was sent on connection `k`, which was idle. */
  ghost predicate Untouched(s: State, t: State, k: nat) {
    k < |s.sessions| && Grown(s, t) && t.sessions[k] == s.sessions[k]
  }

  lemma AnsweredIs(mode: Mode, s: State, t: State, k: nat)
    requires k < |s.sessions| == |t.sessions| && SessionLater(mode, s, t, k)
    requires |s.sessions[k].answers| + 1 == |s.sessions[k].sent| && |t.sessions[k].answers| > |s.sessions[k].answers|
    ensures Answers(mode, s, t, s.sessions[k], t.sessions[k])
  {
    hide Replied;
  }

  /** Once an idle connection has answered one more line, the line answers the request just sent. */
  lemma DoneIs(mode: Mode, s0: State, at: State, t: State, k: nat, request: Request)
    requires Sound(s0) && Later(mode, s0, at) && k < |s0.sessions| == |at.sessions| && !Waiting(s0.sessions[k])
    requires Later(mode, Receive(at, k, request), t)
    requires k < |t.sessions| && |t.sessions[k].answers| > |s0.sessions[k].answers|
    ensures Exchanged(mode, s0, t, k, request, t.sessions[k].answers[|s0.sessions[k].answers|])
  {
    hide SessionLater, Calm;
    var received := Receive(at, k, request);
    LaterWatched(mode, s0, at, k);
    LaterWatched(mode, received, t, k);
    AnsweredIs(mode, received, t, k);
    ExchangedIs(mode, s0, received, t, k, request);
  }

  lemma ExchangedIs(mode: Mode, s0: State, received: State, t: State, k: nat, request: Request)
    requires k < |s0.sessions| && Grown(s0, received) && Grown(received, t)
    requires |s0.sessions[k].answers| == |s0.sessions[k].sent|
    requires received.sessions[k] == s0.sessions[k].(sent := s0.sessions[k].sent + [request])
    requires Answers(mode, received, t, received.sessions[k], t.sessions[k])
    ensures Exchanged(mode, s0, t, k, request, t.sessions[k].answers[|s0.sessions[k].answers|])
  {
    var b := t.sessions[k];
    assert b.answers == b.answers[..|s0.sessions[k].answers|] + [b.answers[|s0.sessions[k].answers|]];
  }

  /** Time that passes before a request to an idle connection does not matter to what its answer says. */
  lemma LaterExchanged(mode: Mode, s0: State, s1: State, t: State, k: nat, request: Request, answer: Answer)
    requires Sound(s0) && Later(mode, s0, s1) && k < |s0.sessions| && !Waiting(s0.sessions[k])
    requires Exchanged(mode, s1, t, k, request, answer)
    ensures Exchanged(mode, s0, t, k, request, answer)
  {
    hide Later;
    LaterWatched(mode, s0, s1, k);
  }

  function ResultOf(answer: Answer): Result<nat, ClientError> {
    match answer
    case Good(value) => Success(value)
    case Refused => Failure(ServerError)
    case Malformed => Failure(InvalidResponse)
  }

  /** What a request on an idle connection that stays OK has done, by its result. */
  ghost predicate Outcome(mode: Mode, s: State, t: State, k: nat, request: Request, r: Result<nat, ClientError>) {
    match r
    case Success(value) => Exchanged(mode, s, t, k, request, Good(value))
    case Failure(e) => if e == ServerError then Exchanged(mode, s, t, k, request, Refused) else Untouched(s, t, k)
  }

  lemma OutcomeIs(mode: Mode, s: State, t: State, k: nat, request: Request, answer: Answer)
    requires Exchanged(mode, s, t, k, request, answer) && !answer.Malformed?
    ensures Outcome(mode, s, t, k, request, ResultOf(answer))
  {
    hide Exchanged;
  }

  lemma LaterOutcome(mode: Mode, s0: State, s1: State, t: State, k: nat, request: Request, r: Result<nat, ClientError>)
    requires Sound(s0) && Later(mode, s0, s1) && k < |s0.sessions| && !Waiting(s0.sessions[k])
    requires Outcome(mode, s1, t, k, request, r)
    ensures Outcome(mode, s0, t, k, request, r)
  {
    hide Later, Exchanged;
    LaterWatched(mode, s0, s1, k);
    match r
    case Success(value) => LaterExchanged(mode, s0, s1, t, k, request, Good(value));
    case Failure(e) =>
      if e == ServerError {
        LaterExchanged(mode, s0, s1, t, k, request, Refused);
      }
  }

  /** At most this request was sent on connection `k`. */
  ghost predicate AtMost(s: State, t: State, k: nat, request: Request) {
    && k < |s.sessions| == |t.sessions|
    && (t.sessions[k].sent == s.sessions[k].sent || t.sessions[k].sent == s.sessions[k].sent + [request])
  }

  // ---- The client ----

  class IndexClient {
    const world: World
    const session: nat
    var closed: bool
    var hasError: bool
    var numRequests: nat
    var numResponses: nat
    /** How many answer lines the buffered reader has taken from the connection. */
    var consumed: nat
    var tx: IndexClientTx?

    ghost function Counters(): Link
      reads this
    {
      Link(closed, hasError, numRequests, numResponses)
    }

    predicate IsOK()
      reads this
    {
      !closed && !hasError && numRequests == numResponses
    }

    /** Until the first error, requests and responses are numbered as the server numbers them. */
    ghost predicate Valid()
      reads this, world
    {
      && Sound(world.s) && session < |world.s.sessions| && numResponses <= numRequests
      && (!hasError ==>
            && |world.s.sessions[session].sent| == numRequests
            && consumed == numResponses <= |world.s.sessions[session].answers|)
    }

    /** The connection as the server sees it. */
    ghost function Session(): Session
      requires session < |world.s.sessions|
      reads this, world
    {
      world.s.sessions[session]
    }

    /** Nothing stands in the way of the next request: the connection is OK and the newest, nothing waits on it, and the
        context is not done and will not be. */
    ghost predicate Helped(ctx: Context)
      reads this, world, ctx
    {
      && world.mode.helpful && ctx.patient && !ctx.done && IsOK()
      && session == |world.s.sessions| - 1 && |Session().answers| == |Session().sent|
    }

    /** Opens a connection. */
    constructor (world: World)
      requires Sound(world.s)
      modifies world
      ensures this.world == world && Valid() && IsOK() && tx == null
      ensures session == |old(world.s.sessions)| && world.s == Connect(old(world.s))
      ensures Kept(world.mode, old(world.s)) ==> Kept(world.mode, world.s)
    {
      this.world := world;
      session := |world.s.sessions|;
      closed, hasError, numRequests, numResponses, consumed, tx := false, false, 0, 0, 0, null;
      new;
      ConnectKept(world.mode, world.s);
      world.s := Connect(world.s);
    }

    /** Time passes while the client looks at its context. */
    method Cancelled(ctx: Context) returns (err: bool)
      requires Valid()
      modifies world, ctx
      ensures Valid() && Later(world.mode, old(world.s), world.s) && Watched(old(world.s), world.s, session)
      ensures Kept(world.mode, old(world.s)) ==> Kept(world.mode, world.s)
      ensures err == ctx.done && (old(ctx.done) ==> ctx.done) && (ctx.patient ==> ctx.done == old(ctx.done))
      ensures world.mode.helpful ==> world.s == Settled(old(world.s))
    {
      hide Kept, Later, Sound, Settled;
      world.Elapse();
      LaterWatched(world.mode, old(world.s), world.s, session);
      err := ctx.Err();
    }

    /** Writing may fail before or after the server has got the line. */
    method WriteLine(request: Request) returns (ok: bool, ghost at: State)
      requires Valid()
      modifies world
      ensures Sound(world.s) && Later(world.mode, old(world.s), at) && Watched(old(world.s), at, session)
      ensures world.s == Receive(at, session, request) || (!ok && world.s == at)
      ensures Kept(world.mode, old(world.s)) && MayRequest(world.mode, old(world.s), session, request) ==> Kept(world.mode, world.s)
      ensures world.mode.helpful ==> ok && at == Settled(old(world.s))
    {
      hide Kept, Later, Sound, MayRequest, Settled;
      world.Elapse();
      at := world.s;
      LaterWatched(world.mode, old(world.s), at, session);
      ReceivedIs(world.mode, old(world.s), at, session, request);
      ok := *;
      ok := ok || world.mode.helpful;
      var received := *;
      if ok || received {
        world.s := Receive(world.s, session, request);
      }
    }

    /** After a failed read the reader may be in the middle of a line, and return anything. */
    method ReadLine() returns (line: Option<Answer>)
      requires Valid()
      modifies world, `consumed
      ensures Sound(world.s) && Later(world.mode, old(world.s), world.s) && Watched(old(world.s), world.s, session)
      ensures Kept(world.mode, old(world.s)) ==> Kept(world.mode, world.s)
      ensures line.None? ==> consumed == old(consumed)
      ensures !hasError && line.Some? ==>
                && old(consumed) < |world.s.sessions[session].answers|
                && line.value == world.s.sessions[session].answers[old(consumed)] && consumed == old(consumed) + 1
      ensures world.mode.helpful ==> world.s == Settled(old(world.s))
      ensures world.mode.helpful && !hasError && old(consumed) < |world.s.sessions[session].answers| ==> line.Some?
    {
      hide Kept, Later, Sound, Settled;
      world.Elapse();
      LaterWatched(world.mode, old(world.s), world.s, session);
      line := None;
      if hasError {
        line := *;
      } else if consumed < |world.s.sessions[session].answers| {
        var read := *;
        if read || world.mode.helpful {
          line := Some(world.s.sessions[session].answers[consumed]);
          consumed := consumed + 1;
        }
      }
    }

    /** Sends a request, unless the context is done. */
    method PutRequest(ctx: Context, request: Request) returns (err: Option<ClientError>, ghost at: State)
      requires Valid()
      modifies this`hasError, this`numRequests, world, ctx
      ensures Valid() && AtMost(old(world.s), world.s, session, request)
      ensures err.Some? ==> Sends(old(Counters()), Counters(), Failure(err.value)) && numRequests == old(numRequests)
      ensures err != Some(TxDone)
      ensures err.None? ==> numRequests == old(numRequests) + 1 && hasError == old(hasError)
      ensures err.None? ==>
                && Later(world.mode, old(world.s), at) && session < |at.sessions| == |world.s.sessions|
                && world.s == Receive(at, session, request) && at.sessions[session].sent == old(world.s.sessions[session].sent)
      ensures old(ctx.done) ==> err == Some(ContextDone)
      ensures err == Some(ContextDone) ==> ctx.done && Later(world.mode, old(world.s), world.s)
      ensures request.Commit? || Calm(world.mode, old(world.s), world.s)
      ensures Kept(world.mode, old(world.s)) && MayRequest(world.mode, old(world.s), session, request) ==> Kept(world.mode, world.s)
      ensures old(Helped(ctx)) ==> err.None? && !ctx.done && world.s == Receive(old(world.s), session, request)
    {
      hide Kept, Later, Sound, MayRequest, Committing, Settled;
      ghost var s0, mode := world.s, world.mode;
      at := s0;
      if Helped(ctx) {
        NothingWaits(s0, session);
      }
      var done := Cancelled(ctx);
      LaterWatched(mode, s0, world.s, session);
      if done {
        return Some(ContextDone), at;
      }
      if MayRequest(mode, s0, session, request) {
        MayLater(mode, s0, world.s, session, request);
      }
      ghost var s1 := world.s;
      var ok;
      ok, at := WriteLine(request);
      LaterTransitive(mode, s0, s1, at);
      LaterWatched(mode, s0, at, session);
      if !request.Commit? {
        ReceivedCalm(mode, at, session, request);
      }
      if !ok {
        hasError := true;
        return Some(WriteFailed), at;
      }
      numRequests := numRequests + 1;
      err := None;
    }

    /** The response to the latest request, unless the context is done first. */
    method AwaitResponse(ctx: Context) returns (r: Result<nat, ClientError>)
      requires Valid() && numResponses < numRequests
      modifies this`hasError, this`numResponses, this`consumed, world, ctx
      ensures Valid() && Later(world.mode, old(world.s), world.s) && Watched(old(world.s), world.s, session)
      ensures Kept(world.mode, old(world.s)) ==> Kept(world.mode, world.s)
      ensures old(hasError) ==> hasError
      ensures numResponses == old(numResponses) || numResponses == old(numResponses) + 1
      ensures Sends(old(Counters()).(numRequests := old(numRequests) - 1), Counters(), r) && r != Failure(TxDone)
      ensures r == Failure(ContextDone) ==> ctx.done
      ensures !hasError && numResponses > old(numResponses) ==>
                && old(numResponses) < |world.s.sessions[session].answers|
                && r == ResultOf(world.s.sessions[session].answers[old(numResponses)])
      ensures world.mode.helpful ==> world.s == Settled(old(world.s))
      ensures world.mode.helpful && ctx.patient && !old(ctx.done) ==>
                && !ctx.done
                && (!old(hasError) && old(numResponses) < |world.s.sessions[session].answers| ==>
                      r == ResultOf(world.s.sessions[session].answers[old(numResponses)]))
    {
      hide Kept, Later, Sound, Settled;
      var err := Cancelled(ctx);
      SettledTwice(old(world.s));
      if err {
        return Failure(ContextDone);
      }
      ghost var between := world.s;
      var line := ReadLine();
      LaterTransitive(world.mode, old(world.s), between, world.s);
      if line.None? {
        hasError := true;
        return Failure(ReadFailed);
      }
      r := ResultOf(line.value);
      if line.value.Malformed? {
        hasError := true;
      } else {
        numResponses := numResponses + 1;
      }
    }

    /** One request and its response. Cancellation and I/O errors may strike at every step.
        A response that is read on an intact connection answers the request made as many requests ago as the gap is wide:
        this very request if the connection was OK. If the context is done beforehand nothing happens at all. */
    method SendRequest(ctx: Context, request: Request) returns (r: Result<nat, ClientError>)
      requires Valid()
      modifies this`hasError, this`numRequests, this`numResponses, this`consumed, world, ctx
      ensures Valid() && AtMost(old(world.s), world.s, session, request)
      ensures Sends(old(Counters()), Counters(), r) && r != Failure(TxDone)
      ensures r == Failure(ContextDone) ==> ctx.done
      ensures old(ctx.done) ==> r == Failure(ContextDone) && Counters() == old(Counters())
      ensures !hasError && numResponses > old(numResponses) ==>
                && old(numResponses) < |world.s.sessions[session].answers|
                && r == ResultOf(world.s.sessions[session].answers[old(numResponses)])
                && (old(numRequests) == old(numResponses) ==> world.s.sessions[session].sent[old(numResponses)] == request)
      ensures old(IsOK()) && IsOK() ==> Outcome(world.mode, old(world.s), world.s, session, request, r)
      ensures request.Commit? || Calm(world.mode, old(world.s), world.s)
      ensures Kept(world.mode, old(world.s)) && MayRequest(world.mode, old(world.s), session, request) ==> Kept(world.mode, world.s)
      ensures old(Helped(ctx)) ==> Helped(ctx) && Served(old(world.s), world.s, request)
    {
      hide Kept, Later, Exchanged, Sound, MayRequest, Watched, Calm, Grown, Settled, Served;
      ghost var s0 := world.s;
      SoundAt(s0, session);
      var err;
      ghost var at;
      err, at := PutRequest(ctx, request);
      ghost var s2 := world.s;
      if err.Some? {
        if err.value == ContextDone && old(IsOK()) {
          UntouchedIs(world.mode, s0, s2, session);
        }
        return Failure(err.value);
      }
      r := AwaitResponse(ctx);
      if old(Helped(ctx)) {
        ServedIs(s0, s2, world.s, session, request);
      }
      WatchedIs(s2, world.s, session);
      LaterWatched(world.mode, s2, world.s, session);
      CalmOn(world.mode, s0, s2, world.s);
      if old(IsOK()) && IsOK() {
        DoneIs(world.mode, s0, at, world.s, session, request);
        OutcomeIs(world.mode, s0, world.s, session, request, world.s.sessions[session].answers[|s0.sessions[session].answers|]);
      }
    }

    /** Closes the connection, after rolling back if a transaction is known; an error leaves it open. */
    method Close(ctx: Context) returns (r: Result<(), ClientError>)
      requires Valid() && (tx != null ==> tx.c == this)
      modifies this, world, ctx, if tx != null then {tx} else {}
      ensures Valid() && |world.s.sessions| == |old(world.s.sessions)|
      ensures Leads(old(Counters()), Counters())
      ensures closed <==> r.Success?
      ensures old(!closed && tx != null) && (r.Success? || r == Failure(CloseFailed)) ==>
                && Sends(old(Counters()), Counters().(closed := false), Success(0))
                && old(tx).done && !old(tx != null && tx.done)
      ensures old(closed) || old(tx) == null ==> hasError == old(hasError) && world.s == old(world.s) && Counters() == old(Counters()).(closed := closed)
      ensures Calm(world.mode, old(world.s), world.s)
      ensures Kept(world.mode, old(world.s)) && session == |old(world.s.sessions)| - 1 ==> Kept(world.mode, world.s)
    {
      hide Kept, Sound, Committing;
      ghost var l := Counters();
      LeadsCloses(l, l);
      if closed {
        return Success(());
      }
      if tx != null {
        var undone := tx.Rollback(ctx);
        LeadsSends(l, Counters(), undone);
        if undone.Failure? {
          return Failure(undone.error);
        }
      }
      ghost var m := Counters();
      r := Failure(CloseFailed);
      if * {
        closed := true;
        r := Success(());
      }
      LeadsCloses(m, Counters());
      LeadsOn(l, m, Counters());
    }

    /** The field for the current transaction is never assigned here, so no transaction is ever refused for it. */
    method BeginTx(ctx: Context) returns (r: Result<IndexClientTx, ClientError>)
      requires Valid()
      modifies this`hasError, this`numRequests, this`numResponses, this`consumed, world, ctx
      ensures Valid() && AtMost(old(world.s), world.s, session, Begin)
      ensures r.Success? ==> fresh(r.value) && r.value.c == this && !r.value.done
      ensures if tx != null then r == Failure(TxActive) && Counters() == old(Counters()) && world.s == old(world.s)
              else Sends(old(Counters()), Counters(), if r.Success? then Success(0) else Failure(r.error))
      ensures r == Failure(ContextDone) ==> ctx.done
      ensures old(ctx.done) && tx == null ==> r == Failure(ContextDone) && Counters() == old(Counters())
      ensures old(IsOK()) && IsOK() ==>
                if r.Success? then Staged(world.mode, old(world.s), world.s, session, [])
                else NotBegun(world.mode, old(world.s), world.s, session)
      ensures Calm(world.mode, old(world.s), world.s)
      ensures Kept(world.mode, old(world.s)) && MayRequest(world.mode, old(world.s), session, Begin) ==> Kept(world.mode, world.s)
      ensures old(Helped(ctx) && tx == null && Session().open.None?) ==>
                r.Success? && Helped(ctx) && Holding(old(world.s), world.s, session, [])
    {
      hide Kept, Sound, Staged, NotBegun, Exchanged, MayRequest, Committing, Served;
      ghost var s0 := world.s;
      if tx != null {
        NothingSent(world.mode, s0, session);
        return Failure(TxActive);
      }
      SoundAt(s0, session);
      var begun := new IndexClientTx(this);
      var sent := begun.Send(ctx, Begin);
      if old(IsOK()) && IsOK() {
        BeginIs(world.mode, s0, world.s, session, sent);
      }
      if old(Helped(ctx) && tx == null && Session().open.None?) {
        ServedResult(world.mode, s0, world.s, session, Begin, sent);
        ServedBegin(s0, world.s, session);
      }
      if sent.Failure? {
        return Failure(sent.error);
      }
      r := Success(begun);
    }

    /** The attempt to roll back after a failed insert; what comes of it is not looked at. */
    method Undo(ctx: Context, tx: IndexClientTx, ghost s0: State)
      requires Valid() && this.tx == null && tx.c == this && session < |s0.sessions| == |world.s.sessions|
      requires IsOK() ==> StillOpen(world.mode, s0.sessions[session], Session())
      modifies this, tx`done, world, ctx
      ensures Valid() && |world.s.sessions| == |s0.sessions| && this.tx == null && closed == old(closed)
      ensures Leads(old(Counters()), Counters())
      ensures IsOK() ==> LeftOpen(world.mode, s0.sessions[session], Session())
      ensures old(ctx.done && IsOK() && !tx.done) ==> IsOK() && Session() == old(Session())
      ensures IsOK() && !old(tx.done) ==> ctx.done || RollbackSent(Session())
      ensures Kept(world.mode, old(world.s)) && session == |old(world.s.sessions)| - 1 ==> Kept(world.mode, world.s)
    {
      hide Kept, Sound, Exchanged, StillOpen, LeftOpen, Leads, Calm;
      ghost var before, l := world.s, Counters();
      var undone := tx.Rollback(ctx);
      LeadsSends(l, Counters(), undone);
      StillOK(l, Counters(), undone);
      if IsOK() {
        RollbackLeft(world.mode, s0, before, world.s, session, undone);
        RollbackWasSent(l, Counters(), world.mode, before, world.s, session, undone);
      }
    }

    /** Puts one row after another into the transaction. A failure is followed by an attempt to roll back. */
    method InsertRows(ctx: Context, tx: IndexClientTx, ids: seq<nat>, ghost s0: State, ghost ok: bool) returns (r: Result<(), ClientError>)
      requires Valid() && this.tx == null && tx.c == this && !tx.done && session < |s0.sessions| == |world.s.sessions|
      requires ok ==> IsOK() && Staged(world.mode, s0, world.s, session, [])
      requires IsOK() ==> ok
      modifies this, tx`done, world, ctx
      ensures Valid() && |world.s.sessions| == |s0.sessions| && this.tx == null && closed == old(closed)
      ensures Leads(old(Counters()), Counters()) && (r.Success? ==> !tx.done)
      ensures ok && r.Success? ==> IsOK() && Staged(world.mode, s0, world.s, session, ids)
      ensures IsOK() ==> ok && (r.Failure? ==> LeftOpen(world.mode, s0.sessions[session], Session()))
      ensures IsOK() && r.Failure? ==> ctx.done || RollbackSent(Session())
      ensures Kept(world.mode, old(world.s)) && ok && ReadyForRows(world.mode, s0, session, ids) ==> Kept(world.mode, world.s)
      ensures old(Helped(ctx)) && Holding(s0, old(world.s), session, []) ==> r.Success? && Helped(ctx) && Holding(s0, world.s, session, ids)
    {
      hide Kept, Sound, Staged, Exchanged, MayRequest, ReadyForRows, StillOpen, LeftOpen, Leads, Calm, Holding, Served;
      ghost var mode, l := world.mode, Counters();
      ghost var helped := Helped(ctx) && Holding(s0, world.s, session, []);
      LeadsCloses(l, l);
      for i := 0 to |ids|
        invariant Valid() && this.tx == null && tx.c == this && !tx.done && |world.s.sessions| == |s0.sessions|
        invariant closed == old(closed) && Leads(l, Counters()) && (IsOK() ==> ok)
        invariant ok ==> IsOK() && Staged(mode, s0, world.s, session, ids[..i])
        invariant Kept(mode, old(world.s)) && ok && ReadyForRows(mode, s0, session, ids) ==> Kept(mode, world.s)
        invariant helped ==> Helped(ctx) && Holding(s0, world.s, session, ids[..i])
      {
        ghost var before, m := world.s, Counters();
        if ok && ReadyForRows(mode, s0, session, ids) {
          InsertMay(mode, s0, before, session, ids, i);
          ReadyNewest(mode, s0, session, ids);
        }
        var inserted := tx.Insert(ctx, ids[i]);
        LeadsSends(m, Counters(), inserted);
        LeadsOn(l, m, Counters());
        StillOK(m, Counters(), inserted);
        if helped {
          HoldingMore(mode, s0, before, world.s, session, ids[..i], ids[i], inserted);
        }
        if inserted.Failure? {
          ghost var n := Counters();
          if IsOK() {
            StagedFails(mode, s0, before, world.s, session, ids[..i], Request.Insert(ids[i]), inserted);
          }
          Undo(ctx, tx, s0);
          LeadsOn(l, n, Counters());
          LeadsGap(n, Counters());
          return Failure(inserted.error);
        }
        if ok {
          StagedMore(mode, s0, before, world.s, session, ids[..i], ids[i], inserted.value);
        }
        assert ids[..i + 1] == ids[..i] + [ids[i]];
      }
      assert ids[..|ids|] == ids;
      r := Success(());
    }

    /** Inserts all the rows in one transaction. A failed insert is followed by an attempt to roll back, a failed begin or
        commit is not. If the connection stays OK, the transaction stays open exactly as `LeftOpen` says. */
    method Insert(ctx: Context, ids: seq<nat>) returns (r: Result<(), ClientError>)
      requires Valid()
      modifies this, world, ctx
      ensures Valid() && |world.s.sessions| == |old(world.s.sessions)| && tx == old(tx) && closed == old(closed)
      ensures Leads(old(Counters()), Counters())
      ensures ids == [] ==> r == Success(()) && world.s == old(world.s) && Counters() == old(Counters())
      ensures ids != [] && tx != null ==> r == Failure(TxActive) && world.s == old(world.s) && Counters() == old(Counters())
      ensures old(IsOK()) && r.Success? ==> IsOK() && Grown(old(world.s), world.s) && forall id :: id in ids ==> id in world.s.committed
      ensures old(IsOK()) && r.Success? ==> Fulfilled(old(Session()), Session(), WritesOf(ids))
      ensures IsOK() && r.Failure? ==> LeftOpen(world.mode, old(Session()), Session())
      ensures old(IsOK()) && old(Session().open.Some?) && ids != [] ==>
                r.Failure? && AtMost(old(world.s), world.s, session, Begin) && Calm(world.mode, old(world.s), world.s)
      ensures Kept(world.mode, old(world.s)) && old(IsOK()) && ReadyForRows(world.mode, old(world.s), session, ids) ==> Kept(world.mode, world.s)
      ensures old(Helped(ctx) && tx == null && Session().open.None?) ==>
                r.Success? && Helped(ctx) && Extended(old(world.s), world.s, session, ids)
    {
      hide Kept, Sound, Staged, NotBegun, Exchanged, MayRequest, ReadyForRows, LeftOpen, StillOpen, Leads, Sends, Calm, AtMost, Holding, InsertsOf;
      ghost var s0, mode, l, ok := world.s, world.mode, Counters(), IsOK();
      SoundAt(s0, session);
      LeadsCloses(l, l);
      if |ids| == 0 {
        return Success(());
      }
      if ReadyForRows(mode, s0, session, ids) {
        BeginMay(mode, s0, session, ids);
      }
      var begun := BeginTx(ctx);
      AtMostSame(s0, world.s, session, Begin);
      BeginLeads(l, Counters(), tx != null, begun);
      if begun.Failure? {
        if IsOK() {
          NotBegunLeft(mode, s0, world.s, session);
        }
        return Failure(begun.error);
      }
      if ok {
        BegunWasClosed(mode, s0, world.s, session);
      }
      ghost var m := Counters();
      r := InsertRows(ctx, begun.value, ids, s0, ok);
      LeadsOn(l, m, Counters());
      if r.Success? {
        ghost var n := Counters();
        r := CommitRows(ctx, begun.value, ids, s0, ok);
        LeadsOn(l, n, Counters());
      }
    }

    /** Commits the transaction; no rollback follows a failure. */
    method CommitRows(ctx: Context, tx: IndexClientTx, ids: seq<nat>, ghost s0: State, ghost ok: bool) returns (r: Result<(), ClientError>)
      requires Valid() && this.tx == null && tx.c == this && !tx.done && session < |s0.sessions| == |world.s.sessions| && ids != []
      requires ok ==> IsOK() && Staged(world.mode, s0, world.s, session, ids)
      requires IsOK() ==> ok
      modifies this, tx`done, world, ctx
      ensures Valid() && |world.s.sessions| == |s0.sessions| && this.tx == null && closed == old(closed)
      ensures Leads(old(Counters()), Counters())
      ensures ok && r.Success? ==> IsOK() && Grown(s0, world.s) && forall id :: id in ids ==> id in world.s.committed
      ensures ok && r.Success? ==> Fulfilled(s0.sessions[session], Session(), WritesOf(ids))
      ensures IsOK() && r.Failure? ==> LeftOpen(world.mode, s0.sessions[session], Session())
      ensures ok && old(ctx.done) ==> r == Failure(ContextDone) && IsOK() && Session().open == Some(ids)
      ensures Kept(world.mode, old(world.s)) && ok && ReadyForRows(world.mode, s0, session, ids) ==> Kept(world.mode, world.s)
      ensures old(Helped(ctx)) && Holding(s0, old(world.s), session, ids) ==> r.Success? && Helped(ctx) && Extended(s0, world.s, session, ids)
    {
      hide Kept, Sound, Staged, Exchanged, MayRequest, ReadyForRows, StillOpen, LeftOpen, Leads, Calm, Holding, Served, Extended, Fulfilled, WritesOf;
      ghost var mode, before, l := world.mode, world.s, Counters();
      if ok && ReadyForRows(mode, s0, session, ids) {
        CommitMay(mode, s0, before, session, ids);
      }
      var committed := tx.Commit(ctx);
      LeadsSends(l, Counters(), committed);
      StillOK(l, Counters(), committed);
      if old(Helped(ctx)) && Holding(s0, before, session, ids) {
        HoldingCommitted(mode, s0, before, world.s, session, ids, committed);
      }
      if committed.Failure? {
        if IsOK() {
          StagedOpen(mode, s0, before, session, ids);
          StagedFails(mode, s0, before, world.s, session, ids, Request.Commit, committed);
          StillLeft(mode, s0, world.s, session);
        }
        return Failure(committed.error);
      }
      if ok {
        StagedCommitted(mode, s0, before, world.s, session, ids, committed.value);
      }
      r := Success(());
    }
  }

  class IndexClientTx {
    const c: IndexClient
    var done: bool

    constructor (c: IndexClient)
      ensures this.c == c && !done
    {
      this.c := c;
      done := false;
    }

    /** Checks the context before each request, as all operations of a transaction do. */
    method Send(ctx: Context, request: Request) returns (r: Result<nat, ClientError>)
      requires c.Valid()
      modifies c`hasError, c`numRequests, c`numResponses, c`consumed, c.world, ctx
      ensures c.Valid() && AtMost(old(c.world.s), c.world.s, c.session, request)
      ensures Sends(old(c.Counters()), c.Counters(), r)
      ensures r == Failure(TxDone) <==> done
      ensures r == Failure(ContextDone) ==> ctx.done
      ensures old(ctx.done) && !done ==> r == Failure(ContextDone) && c.Counters() == old(c.Counters())
      ensures old(c.IsOK()) && c.IsOK() ==> Outcome(c.world.mode, old(c.world.s), c.world.s, c.session, request, r)
      ensures request.Commit? || Calm(c.world.mode, old(c.world.s), c.world.s)
      ensures Kept(c.world.mode, old(c.world.s)) && MayRequest(c.world.mode, old(c.world.s), c.session, request) ==>
                Kept(c.world.mode, c.world.s)
      ensures old(c.Helped(ctx)) && !done ==> c.Helped(ctx) && Served(old(c.world.s), c.world.s, request)
    {
      hide Kept, Later, Exchanged, Sound, MayRequest, Committing, Settled, Served;
      ghost var s0, mode := c.world.s, c.world.mode;
      SoundAt(s0, c.session);
      if done {
        return Failure(TxDone);
      }
      if c.Helped(ctx) {
        NothingWaits(s0, c.session);
      }
      var err := c.Cancelled(ctx);
      ghost var s1 := c.world.s;
      LaterWatched(mode, s0, s1, c.session);
      if err {
        return Failure(ContextDone);
      }
      if MayRequest(mode, s0, c.session, request) {
        MayLater(mode, s0, s1, c.session, request);
      }
      r := c.SendRequest(ctx, request);
      if old(c.IsOK()) && c.IsOK() {
        LaterOutcome(mode, s0, s1, c.world.s, c.session, request, r);
      }
    }

    method Insert(ctx: Context, id: nat) returns (r: Result<nat, ClientError>)
      requires c.Valid()
      modifies c`hasError, c`numRequests, c`numResponses, c`consumed, c.world, ctx
      ensures c.Valid() && AtMost(old(c.world.s), c.world.s, c.session, Request.Insert(id))
      ensures Sends(old(c.Counters()), c.Counters(), r)
      ensures r == Failure(TxDone) <==> done
      ensures r == Failure(ContextDone) ==> ctx.done
      ensures old(ctx.done) && !done ==> r == Failure(ContextDone) && c.Counters() == old(c.Counters())
      ensures old(c.IsOK()) && c.IsOK() ==> Outcome(c.world.mode, old(c.world.s), c.world.s, c.session, Request.Insert(id), r)
      ensures Calm(c.world.mode, old(c.world.s), c.world.s)
      ensures Kept(c.world.mode, old(c.world.s)) && MayRequest(c.world.mode, old(c.world.s), c.session, Request.Insert(id)) ==>
                Kept(c.world.mode, c.world.s)
      ensures old(c.Helped(ctx)) && !done ==> c.Helped(ctx) && Served(old(c.world.s), c.world.s, Request.Insert(id))
    {
      hide Served;
      r := Send(ctx, Request.Insert(id));
    }

    /** If the context is done beforehand the transaction stays as it is, open on a connection that stays OK. */
    method Commit(ctx: Context) returns (r: Result<nat, ClientError>)
      requires c.Valid()
      modifies this`done, c`tx, c`hasError, c`numRequests, c`numResponses, c`consumed, c.world, ctx
      ensures c.Valid() && AtMost(old(c.world.s), c.world.s, c.session, Request.Commit)
      ensures Sends(old(c.Counters()), c.Counters(), r)
      ensures done == (old(done) || r.Success?) && c.tx == if r.Success? then null else old(c.tx)
      ensures r == Failure(TxDone) <==> old(done)
      ensures r == Failure(ContextDone) ==> ctx.done
      ensures old(ctx.done) && !old(done) ==> r == Failure(ContextDone) && c.Counters() == old(c.Counters())
      ensures old(c.IsOK()) && c.IsOK() ==> Outcome(c.world.mode, old(c.world.s), c.world.s, c.session, Request.Commit, r)
      ensures Kept(c.world.mode, old(c.world.s)) && MayRequest(c.world.mode, old(c.world.s), c.session, Request.Commit) ==>
                Kept(c.world.mode, c.world.s)
      ensures old(c.Helped(ctx)) && !old(done) ==> c.Helped(ctx) && Served(old(c.world.s), c.world.s, Request.Commit)
    {
      hide Served;
      r := Send(ctx, Request.Commit);
      if r.Success? {
        done := true;
        c.tx := null;
      }
    }

    method Rollback(ctx: Context) returns (r: Result<nat, ClientError>)
      requires c.Valid()
      modifies this`done, c`tx, c`hasError, c`numRequests, c`numResponses, c`consumed, c.world, ctx
      ensures c.Valid() && AtMost(old(c.world.s), c.world.s, c.session, Request.Rollback)
      ensures Sends(old(c.Counters()), c.Counters(), r)
      ensures done == (old(done) || r.Success?) && c.tx == if r.Success? then null else old(c.tx)
      ensures r == Failure(TxDone) <==> old(done)
      ensures r == Failure(ContextDone) ==> ctx.done
      ensures old(ctx.done) && !old(done) ==> r == Failure(ContextDone) && c.Counters() == old(c.Counters())
      ensures old(c.IsOK()) && c.IsOK() ==> Outcome(c.world.mode, old(c.world.s), c.world.s, c.session, Request.Rollback, r)
      ensures Calm(c.world.mode, old(c.world.s), c.world.s)
      ensures Kept(c.world.mode, old(c.world.s)) && c.session == |old(c.world.s.sessions)| - 1 ==> Kept(c.world.mode, c.world.s)
    {
      r := Send(ctx, Request.Rollback);
      if r.Success? {
        done := true;
        c.tx := null;
      }
    }
  }

  /** The newest connection was idle, and this request was served on it. */
  ghost predicate Served(s: State, t: State, request: Request) {
    s.sessions != [] && Idle(s) && |s.sessions[|s.sessions| - 1].answers| == |s.sessions[|s.sessions| - 1].sent| && t == Serve(s, request)
  }

  lemma NothingWaits(s: State, k: nat)
    requires k == |s.sessions| - 1 && |s.sessions[k].answers| == |s.sessions[k].sent|
    ensures Settled(s) == s
  {
  }

  lemma SettledTwice(s: State)
    ensures Settled(Settled(s)) == Settled(s)
  {
    SettledIdle(s);
  }

  lemma ServedIs(s: State, m: State, t: State, k: nat, request: Request)
    requires k == |s.sessions| - 1 && |s.sessions[k].answers| == |s.sessions[k].sent|
    requires m == Receive(s, k, request) && t == Settled(m)
    ensures Served(s, t, request) && |t.sessions| == |s.sessions|
    ensures var a, b := s.sessions[k], t.sessions[k];
            |a.answers| < |b.answers| == |b.sent| && !b.answers[|a.answers|].Malformed?
  {
    hide Serve, Settled;
    ServeIs(s, request);
    ServeMeans(s, request);
  }

  lemma UntouchedIs(mode: Mode, s: State, t: State, k: nat)
    requires Sound(s) && Later(mode, s, t) && k < |s.sessions| && !Waiting(s.sessions[k])
    ensures Untouched(s, t, k)
  {
    hide Later;
    LaterWatched(mode, s, t, k);
  }

  lemma WatchedIs(s: State, t: State, k: nat)
    requires Watched(s, t, k)
    ensures k < |s.sessions| == |t.sessions| && t.sessions[k].sent == s.sessions[k].sent
    ensures s.sessions[k].answers <= t.sessions[k].answers
  {
  }

  lemma CalmOn(mode: Mode, s: State, t: State, u: State)
    ensures Calm(mode, s, t) && Calm(mode, t, u) ==> Calm(mode, s, u)
  {
    hide Committing;
  }

  lemma StillOK(l: Link, m: Link, r: Result<nat, ClientError>)
    requires Sends(l, m, r) && l.numResponses <= l.numRequests
    ensures LinkOK(m) ==> LinkOK(l)
    ensures r.Success? && LinkOK(l) ==> LinkOK(m)
  {
  }

  lemma ConnectKept(mode: Mode, s: State)
    requires Sound(s)
    ensures Sound(Connect(s))
    ensures Kept(mode, s) ==> Kept(mode, Connect(s))
  {
    hide Reachable;
    if Reachable(s) {
      assert Step(s, Connect(s));
      ReachableStep(s, Connect(s));
    }
  }

  // ---- One transaction in a helpful world ----

  /** Since `s`, connection `k` has opened a transaction with these rows, and nothing else has changed. */
  ghost predicate Holding(s: State, t: State, k: nat, rows: seq<nat>) {
    && t.table == s.table && t.committed == s.committed && k == |t.sessions| - 1 == |s.sessions| - 1
    && t.sessions[k].open == Some(rows)
  }

  /** Since `s`, the rows were added to the index, and nothing is left open. */
  ghost predicate Extended(s: State, t: State, k: nat, rows: seq<nat>) {
    && t.table == s.table && t.committed == s.committed + rows && k == |t.sessions| - 1 == |s.sessions| - 1
    && t.sessions[k].open.None?
  }

  /** A request that fits the transaction succeeds, and asking for the largest id tells it. */
  lemma ServedResult(mode: Mode, s: State, t: State, k: nat, request: Request, r: Result<nat, ClientError>)
    requires k == |s.sessions| - 1 && Served(s, t, request) && Outcome(mode, s, t, k, request, r)
    requires request.MaxId? || if request.Begin? then s.sessions[k].open.None? else s.sessions[k].open.Some?
    ensures r.Success? && (request.MaxId? ==> r.value == Max(s.committed))
  {
    hide Serve, Replied;
    ServeMeans(s, request);
    var a, b := s.sessions[k], t.sessions[k];
    assert b.answers[|a.answers|].Good?;
  }

  lemma ServedBegin(s: State, t: State, k: nat)
    requires k == |s.sessions| - 1 && Served(s, t, Begin) && s.sessions[k].open.None?
    ensures Holding(s, t, k, [])
  {
    hide Serve;
    ServeMeans(s, Begin);
  }

  lemma HoldingMore(mode: Mode, s: State, t: State, u: State, k: nat, rows: seq<nat>, id: nat, r: Result<nat, ClientError>)
    requires Holding(s, t, k, rows) && Served(t, u, Request.Insert(id)) && Outcome(mode, t, u, k, Request.Insert(id), r)
    ensures r.Success? && Holding(s, u, k, rows + [id])
  {
    hide Serve;
    ServedResult(mode, t, u, k, Request.Insert(id), r);
    ServeMeans(t, Request.Insert(id));
  }

  lemma HoldingCommitted(mode: Mode, s: State, t: State, u: State, k: nat, rows: seq<nat>, r: Result<nat, ClientError>)
    requires Holding(s, t, k, rows) && Served(t, u, Commit) && Outcome(mode, t, u, k, Commit, r)
    ensures r.Success? && Extended(s, u, k, rows)
  {
    hide Serve;
    ServedResult(mode, t, u, k, Commit, r);
    ServeMeans(t, Commit);
  }

  // ---- One transaction ----

  /** The rows may be inserted on connection `k`: it was just told the id that they follow. */
  ghost predicate ReadyForRows(mode: Mode, s: State, k: nat, ids: seq<nat>) {
    && k == |s.sessions| - 1 && JustTold(s.sessions[k])
    && NextRows(s.table, s.sessions[k].last, ids)
    && (mode.quiet ==> s.sessions[k].seen == s.commits)
  }

  /** The requests and answers since `a`; nothing waits. */
  ghost predicate Since(a: Session, b: Session) {
    |a.answers| == |a.sent| && |b.answers| == |b.sent| && a.sent <= b.sent && a.answers <= b.answers
  }

  /** Since `a` a transaction was begun. */
  predicate Begun(a: Session, b: Session) {
    |a.sent| < |b.answers| && |a.sent| < |b.sent| && b.sent[|a.sent|].Begin? && b.answers[|a.sent|].Good?
  }

  /** The last thing on the connection was an answered rollback. */
  predicate Undone(b: Session) {
    b.sent != [] && |b.answers| == |b.sent| && b.sent[|b.sent| - 1].Rollback? && b.answers[|b.sent| - 1].Good?
  }

  ghost predicate NoneRefused(a: Session, b: Session) {
    forall i :: |a.sent| <= i < |b.answers| ==> b.answers[i].Good?
  }

  /** When a failed Insert leaves a transaction open on a connection that is still OK: if it was begun and the rollback was
      not sent or not answered OK, or if one was open before. A server that closes transactions when it refuses a request
      may have closed it, if it refused one. */
  ghost predicate LeftOpen(mode: Mode, a: Session, b: Session) {
    && Since(a, b)
    && var open := if Begun(a, b) then !Undone(b) else a.open.Some?;
       (b.open.Some? ==> open) && (mode.keeping || NoneRefused(a, b) ==> open ==> b.open.Some?)
  }

  /** The last request on the connection was a rollback. */
  predicate RollbackSent(b: Session) { b.sent != [] && b.sent[|b.sent| - 1].Rollback? }

  /** A rollback on a connection that stays OK was sent, unless the context was done or the transaction finished. */
  lemma RollbackWasSent(l: Link, m: Link, mode: Mode, s: State, t: State, k: nat, r: Result<nat, ClientError>)
    requires Sends(l, m, r) && LinkOK(m) && Outcome(mode, s, t, k, Request.Rollback, r)
    requires k < |t.sessions|
    ensures RollbackSent(t.sessions[k]) || r == Failure(ContextDone) || r == Failure(TxDone)
  {
    hide Replied;
  }

  /** Since `s0`, connection `k` has opened a transaction and put `rows` into it. */
  ghost predicate Staged(mode: Mode, s0: State, s: State, k: nat, rows: seq<nat>) {
    && k < |s0.sessions| && Grown(s0, s) && Calm(mode, s0, s)
    && var a, b := s0.sessions[k], s.sessions[k];
       && Since(a, b) && Begun(a, b) && NoneRefused(a, b) && !Undone(b) && a.open.None?
       && b.open == Some(rows) && b.last == a.last && b.seen == a.seen
       && b.sent == a.sent + [Begin] + InsertsOf(rows)
  }

  /** The requests for some rows, one by one. */
  function InsertsOf(rows: seq<nat>): seq<Request> {
    seq(|rows|, i requires 0 <= i < |rows| => Request.Insert(rows[i]))
  }

  lemma InsertsMore(rows: seq<nat>, id: nat)
    ensures InsertsOf(rows + [id]) == InsertsOf(rows) + [Request.Insert(id)]
  {
  }

  /** From `a` to `b` these requests were sent and answered OK, and nothing else. */
  ghost predicate Fulfilled(a: Session, b: Session, requests: seq<Request>) {
    Since(a, b) && NoneRefused(a, b) && b.sent == a.sent + requests
  }

  /** The requests that put some rows into the index. */
  function WritesOf(rows: seq<nat>): seq<Request> {
    if rows == [] then [] else [Begin] + InsertsOf(rows) + [Request.Commit]
  }

  /** An idle connection on which nothing was sent or a begin was refused. */
  ghost predicate NotBegun(mode: Mode, s0: State, s: State, k: nat) {
    k < |s0.sessions| && (Untouched(s0, s, k) || Exchanged(mode, s0, s, k, Begin, Refused))
  }

  lemma AtMostSame(s: State, t: State, k: nat, request: Request)
    requires AtMost(s, t, k, request)
    ensures k < |s.sessions| == |t.sessions|
  {
  }

  lemma NothingSent(mode: Mode, s: State, k: nat)
    requires k < |s.sessions|
    ensures NotBegun(mode, s, s, k) && Calm(mode, s, s) && AtMost(s, s, k, Begin)
  {
  }

  lemma BeginIs(mode: Mode, s0: State, s: State, k: nat, r: Result<nat, ClientError>)
    requires k < |s0.sessions| && |s0.sessions[k].answers| == |s0.sessions[k].sent|
    requires Outcome(mode, s0, s, k, Begin, r) && Calm(mode, s0, s)
    ensures if r.Success? then Staged(mode, s0, s, k, []) else NotBegun(mode, s0, s, k)
  {
    hide Committing;
  }

  lemma ReadyNewest(mode: Mode, s: State, k: nat, ids: seq<nat>)
    requires ReadyForRows(mode, s, k, ids)
    ensures k == |s.sessions| - 1
  {
  }

  lemma BeginMay(mode: Mode, s: State, k: nat, ids: seq<nat>)
    requires ReadyForRows(mode, s, k, ids)
    ensures MayRequest(mode, s, k, Begin)
  {
    hide NextRows;
  }

  lemma BeginLeads(l: Link, m: Link, active: bool, begun: Result<IndexClientTx, ClientError>)
    requires if active then m == l else Sends(l, m, if begun.Success? then Success(0) else Failure(begun.error))
    ensures Leads(l, m)
    ensures l.numResponses <= l.numRequests && LinkOK(m) ==> LinkOK(l)
    ensures !active && begun.Success? && LinkOK(l) ==> LinkOK(m)
    ensures m.closed == l.closed
  {
    if active {
      LeadsCloses(l, m);
    } else {
      LeadsSends(l, m, if begun.Success? then Success(0) else Failure(begun.error));
    }
  }

  lemma BegunWasClosed(mode: Mode, s0: State, s: State, k: nat)
    requires Staged(mode, s0, s, k, [])
    ensures s0.sessions[k].open.None?
  {
  }

  lemma NotBegunLeft(mode: Mode, s0: State, s: State, k: nat)
    requires NotBegun(mode, s0, s, k) && |s0.sessions[k].answers| == |s0.sessions[k].sent|
    ensures LeftOpen(mode, s0.sessions[k], s.sessions[k])
  {
  }

  /** The next row in a prefix of rows that follow an id. */
  lemma NextRowsPrefix(table: seq<nat>, last: nat, ids: seq<nat>, n: nat)
    requires NextRows(table, last, ids) && n <= |ids|
    ensures NextRows(table, last, ids[..n])
  {
    var p: nat :| NextRowsAt(table, last, ids, p);
    assert NextRowsAt(table, last, ids[..n], p);
  }

  lemma InsertMay(mode: Mode, s0: State, s: State, k: nat, ids: seq<nat>, i: nat)
    requires i < |ids| && Staged(mode, s0, s, k, ids[..i]) && ReadyForRows(mode, s0, k, ids)
    ensures MayRequest(mode, s, k, Request.Insert(ids[i]))
  {
    hide NextRows, Calm;
    assert ids[..i] + [ids[i]] == ids[..i + 1];
    NextRowsPrefix(s0.table, s0.sessions[k].last, ids, i + 1);
    NextRowsGrow(s0.table, s.table, s0.sessions[k].last, ids[..i + 1]);
  }

  lemma CommitMay(mode: Mode, s0: State, s: State, k: nat, ids: seq<nat>)
    requires Staged(mode, s0, s, k, ids) && ReadyForRows(mode, s0, k, ids) && ids != []
    ensures MayRequest(mode, s, k, Request.Commit)
  {
    hide NextRows, Committing;
    IdleNotCommitting(s0);
    NextRowsGrow(s0.table, s.table, s0.sessions[k].last, ids);
  }

  lemma StagedMore(mode: Mode, s0: State, s: State, t: State, k: nat, rows: seq<nat>, id: nat, value: nat)
    requires Staged(mode, s0, s, k, rows) && Exchanged(mode, s, t, k, Request.Insert(id), Good(value)) && Calm(mode, s, t)
    ensures Staged(mode, s0, t, k, rows + [id])
  {
    hide Committing, InsertsOf;
    CalmOn(mode, s0, s, t);
    InsertsMore(rows, id);
    var a := s0.sessions[k];
    assert a.sent + [Begin] + InsertsOf(rows) + [Request.Insert(id)] == a.sent + [Begin] + (InsertsOf(rows) + [Request.Insert(id)]);
  }

  lemma StagedCommitted(mode: Mode, s0: State, s: State, t: State, k: nat, ids: seq<nat>, value: nat)
    requires Staged(mode, s0, s, k, ids) && Exchanged(mode, s, t, k, Request.Commit, Good(value))
    ensures Grown(s0, t) && forall id :: id in ids ==> id in t.committed
    ensures ids != [] ==> Fulfilled(s0.sessions[k], t.sessions[k], WritesOf(ids))
  {
    hide Calm, InsertsOf;
    var a := s0.sessions[k];
    assert a.sent + [Begin] + InsertsOf(ids) + [Request.Commit] == a.sent + ([Begin] + InsertsOf(ids) + [Request.Commit]);
  }

  lemma StagedOpen(mode: Mode, s0: State, s: State, k: nat, rows: seq<nat>)
    requires Staged(mode, s0, s, k, rows)
    ensures k < |s.sessions| && s.sessions[k].open == Some(rows)
  {
    hide Calm;
  }

  /** The transaction was begun and not undone, and is open unless a refusal closed it. */
  ghost predicate StillOpen(mode: Mode, a: Session, b: Session) {
    && Since(a, b) && Begun(a, b) && !Undone(b)
    && (mode.keeping || NoneRefused(a, b) ==> b.open.Some?)
  }

  /** A failed insert or commit on a connection that stays OK: it was not sent, or it was refused. */
  lemma StagedFails(mode: Mode, s0: State, s: State, t: State, k: nat, rows: seq<nat>, request: Request, r: Result<nat, ClientError>)
    requires Staged(mode, s0, s, k, rows) && Outcome(mode, s, t, k, request, r) && r.Failure? && !request.Rollback?
    ensures StillOpen(mode, s0.sessions[k], t.sessions[k]) && |t.sessions| == |s0.sessions|
  {
    hide Calm;
    var a, b, c := s0.sessions[k], s.sessions[k], t.sessions[k];
    if c != b {
      assert c.answers[|b.answers|] == Refused;
    }
  }

  lemma StillLeft(mode: Mode, s0: State, t: State, k: nat)
    requires k < |s0.sessions| == |t.sessions| && StillOpen(mode, s0.sessions[k], t.sessions[k])
    ensures LeftOpen(mode, s0.sessions[k], t.sessions[k])
  {
  }

  /** After the attempt to roll back. */
  lemma RollbackLeft(mode: Mode, s0: State, s: State, t: State, k: nat, r: Result<nat, ClientError>)
    requires k < |s0.sessions| == |s.sessions| && StillOpen(mode, s0.sessions[k], s.sessions[k])
    requires Outcome(mode, s, t, k, Request.Rollback, r)
    ensures LeftOpen(mode, s0.sessions[k], t.sessions[k])
  {
    var a, b, c := s0.sessions[k], s.sessions[k], t.sessions[k];
    if c != b && r.Failure? {
      assert c.answers[|b.answers|] == Refused;
    }
    if c != b && r.Success? {
      assert forall i :: 0 <= i < |b.answers| ==> c.answers[i] == b.answers[i];
    }
  }
}
