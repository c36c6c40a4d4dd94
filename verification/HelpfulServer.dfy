/** An index server that answers each request of the newest connection as soon as it can, with "OK" where it may. */
module HelpfulServer {
  import opened Results
  import opened IndexProtocol

  /** The most helpful answer to the next request: the largest id as it is, and no refusal of what fits the transaction. */
  function Best(s: State, a: Session): Answer
    requires Waiting(a)
  {
    match a.sent[|a.answers|]
    case MaxId => Good(Max(s.committed))
    case Begin => if a.open.None? then Good(0) else Refused
    case Other => Good(0)
    case _ => if a.open.Some? then Good(0) else Refused
  }

  lemma BestMay(s: State, a: Session)
    requires Waiting(a)
    ensures MayAnswer(s, a, Best(s, a)) && !Best(s, a).Malformed?
  {
    hide Max;
  }

  /** The newest connection has every answer. */
  predicate Idle(s: State) {
    s.sessions == [] || !Waiting(s.sessions[|s.sessions| - 1])
  }

  function AnswerBest(s: State): State
    requires !Idle(s)
  {
    var k := |s.sessions| - 1;
    BestMay(s, s.sessions[k]);
    AnswerOn(s, k, Best(s, s.sessions[k]), true)
  }

  /** How many requests wait on the newest connection. */
  function Backlog(s: State): nat {
    if Idle(s) then 0 else var a := s.sessions[|s.sessions| - 1]; |a.sent| - |a.answers|
  }

  lemma AnswerBestNext(s: State)
    requires !Idle(s)
    ensures var t := AnswerBest(s); Backlog(t) == Backlog(s) - 1 && t.table == s.table && |t.sessions| == |s.sessions|
  {
    hide Max;
  }

  /** The state once the newest connection has every answer. */
  function Settled(s: State): (t: State)
    decreases Backlog(s)
  {
    if Idle(s) then s
    else
      AnswerBestNext(s);
      Settled(AnswerBest(s))
  }

  lemma {:induction false} SettledIdle(s: State)
    ensures var t := Settled(s); Idle(t) && t.table == s.table && |t.sessions| == |s.sessions|
    decreases Backlog(s)
  {
    hide AnswerBest, Backlog, Idle;
    if !Idle(s) {
      AnswerBestNext(s);
      SettledIdle(AnswerBest(s));
    }
  }

  /** One request on the newest connection, and its answer. */
  function Serve(s: State, request: Request): State
    requires s.sessions != [] && Idle(s) && |s.sessions[|s.sessions| - 1].answers| == |s.sessions[|s.sessions| - 1].sent|
  {
    AnswerBest(Receive(s, |s.sessions| - 1, request))
  }

  lemma ServeIs(s: State, request: Request)
    requires s.sessions != [] && Idle(s) && |s.sessions[|s.sessions| - 1].answers| == |s.sessions[|s.sessions| - 1].sent|
    ensures Settled(Receive(s, |s.sessions| - 1, request)) == Serve(s, request)
    ensures Idle(Serve(s, request))
  {
    hide Max;
    var m := Receive(s, |s.sessions| - 1, request);
    assert Backlog(m) == 1;
    AnswerBestNext(m);
    assert Settled(AnswerBest(m)) == AnswerBest(m);
  }

  /** What one served request does. */
  lemma ServeMeans(s: State, request: Request)
    requires s.sessions != [] && Idle(s) && |s.sessions[|s.sessions| - 1].answers| == |s.sessions[|s.sessions| - 1].sent|
    ensures var k, t := |s.sessions| - 1, Serve(s, request);
            var a, b := s.sessions[k], t.sessions[k];
            && t.table == s.table && |t.sessions| == |s.sessions|
            && b.sent == a.sent + [request] && |b.answers| == |b.sent|
            && b.answers[|a.answers|] ==
                 (match request
                  case MaxId => Good(Max(s.committed))
                  case Begin => if a.open.None? then Good(0) else Refused
                  case Other => Good(0)
                  case _ => if a.open.Some? then Good(0) else Refused)
            && b.open ==
                 (match request
                  case Begin => if a.open.None? then Some([]) else a.open
                  case Insert(id) => if a.open.Some? then Some(a.open.value + [id]) else None
                  case Commit => None
                  case Rollback => None
                  case _ => a.open)
            && t.committed == s.committed + if request.Commit? && a.open.Some? then a.open.value else []
  {
    hide Max;
  }
}
