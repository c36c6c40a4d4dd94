/** What the updater of pkg/fpindex shares with the rest of the world: the fingerprint table, the index server with its
    connections, and the steps by which its state may change. Requests come in the order in which the updater makes them;
    that it does is proved where the updater is. */
module IndexProtocol {
  import opened Results

  /** A request line; requests that touch neither transactions nor the largest id are not told apart. */
  datatype Request = MaxId | Begin | Insert(id: nat) | Commit | Rollback | Other

  /** An answer line: it starts with "OK ", with "ERR ", or with neither. */
  datatype Answer = Good(value: nat) | Refused | Malformed

  /** Numbers from here on stand for texts that are no 32-bit numbers. */
  const ID_LIMIT := 0x1_0000_0000

  /** One connection as the server sees it: the requests received so far, the answers to the first of them in order, and
      the rows of its open transaction. `last` is the largest id that it was last told, `seen` the number of commits then. */
  datatype Session = Session(sent: seq<Request>, answers: seq<Answer>, open: Option<seq<nat>>, last: nat, seen: nat)

  /** `committed` is the index in the order of insertion; `overtaken` records that some commit took effect after another
      one had, since its connection was last told the largest id. */
  datatype State = State(table: seq<nat>, committed: seq<nat>, commits: nat, overtaken: bool, sessions: seq<Session>)

  /** The largest of some ids, zero if there are none. */
  function Max(ids: seq<nat>): (m: nat)
    ensures forall i :: 0 <= i < |ids| ==> ids[i] <= m
    ensures m == 0 || m in ids
  {
    if ids == [] then 0
    else
      var m := Max(ids[..|ids| - 1]);
      if ids[|ids| - 1] > m then ids[|ids| - 1] else m
  }

  // ---- Steps of the server ----

  predicate Waiting(a: Session) { |a.answers| < |a.sent| }

  /** Whether the server may give this answer to the next request: transactions do not nest, and only an open one takes
      rows or ends; any request may be refused. The largest id may come as something that is no number. */
  predicate MayAnswer(s: State, a: Session, answer: Answer) {
    Waiting(a) &&
    (answer.Good? ==>
       match a.sent[|a.answers|]
       case MaxId => answer.value == Max(s.committed) || answer.value >= ID_LIMIT
       case Begin => a.open.None?
       case Insert(_) => a.open.Some?
       case Commit => a.open.Some?
       case Rollback => a.open.Some?
       case Other => true)
  }

  /** The connection after the answer; a refusal may or may not close the transaction. */
  function Answering(s: State, a: Session, answer: Answer, keep: bool): Session
    requires MayAnswer(s, a, answer)
  {
    var b := a.(answers := a.answers + [answer]);
    if !answer.Good? then if keep then b else b.(open := None)
    else
      match a.sent[|a.answers|]
      case MaxId => if answer.value < ID_LIMIT then b.(last := answer.value, seen := s.commits) else b
      case Begin => b.(open := Some([]))
      case Insert(id) => b.(open := Some(a.open.value + [id]))
      case Commit => b.(open := None)
      case Rollback => b.(open := None)
      case Other => b
  }

  predicate Commits(a: Session, answer: Answer) {
    Waiting(a) && a.sent[|a.answers|].Commit? && answer.Good? && a.open.Some?
  }

  /** The state after the server answers on connection `k`: rows become part of the index at a commit, all together. */
  function AnswerOn(s: State, k: nat, answer: Answer, keep: bool): State
    requires k < |s.sessions| && MayAnswer(s, s.sessions[k], answer)
  {
    var a := s.sessions[k];
    var t := s.(sessions := s.sessions[k := Answering(s, a, answer, keep)]);
    if Commits(a, answer)
    then t.(committed := s.committed + a.open.value, commits := s.commits + 1, overtaken := s.overtaken || a.seen != s.commits)
    else t
  }

  function NewRow(s: State, id: nat): State { s.(table := s.table + [id]) }

  function Connect(s: State): State { s.(sessions := s.sessions + [Session([], [], None, 0, 0)]) }

  function Receive(s: State, k: nat, request: Request): State
    requires k < |s.sessions|
  {
    s.(sessions := s.sessions[k := s.sessions[k].(sent := s.sessions[k].sent + [request])])
  }

  // ---- What every run keeps ----

  /** Ids ascend and are positive. */
  ghost predicate Ascending(table: seq<nat>) {
    (forall i :: 0 <= i < |table| ==> table[i] > 0) &&
    (forall i, j :: 0 <= i < j < |table| ==> table[i] < table[j])
  }

  /** The index holds rows of the table, and with a row all rows before it. */
  ghost predicate Prefix(committed: seq<nat>, table: seq<nat>) {
    && (forall id :: id in committed ==> id in table)
    && (forall i, j :: 0 <= i <= j < |table| && table[j] in committed ==> table[i] in committed)
  }

  ghost predicate NoDuplicates(ids: seq<nat>) {
    forall i, j :: 0 <= i < j < |ids| ==> ids[i] != ids[j]
  }

  ghost predicate NextRowsAt(table: seq<nat>, last: nat, batch: seq<nat>, p: nat) {
    && p + |batch| <= |table| && (forall i :: 0 <= i < |batch| ==> batch[i] == table[p + i])
    && (p > 0 ==> table[p - 1] <= last) && (p < |table| ==> table[p] > last)
  }

  /** `batch` holds the first rows of the table with an id above `last`. */
  ghost predicate NextRows(table: seq<nat>, last: nat, batch: seq<nat>) {
    exists p :: NextRowsAt(table, last, batch, p)
  }

  /** An open transaction that holds the rows following what its connection was told. */
  ghost predicate Prepared(a: Session, table: seq<nat>) {
    a.open.Some? && a.open.value != [] && NextRows(table, a.last, a.open.value)
  }

  /** A commit is only ever the next request to answer, and everything for it is in place. */
  ghost predicate CommitsPrepared(a: Session, table: seq<nat>) {
    forall i :: |a.answers| <= i < |a.sent| && a.sent[i].Commit? ==> i == |a.answers| && Prepared(a, table)
  }

  ghost predicate SessionInv(s: State, a: Session) {
    && |a.answers| <= |a.sent|
    && (a.last == 0 || a.last in s.committed)
    && CommitsPrepared(a, s.table)
    && a.seen <= s.commits
    && (!s.overtaken ==> if a.seen == s.commits then a.last == Max(s.committed) else a.last < Max(s.committed))
  }

  ghost predicate Inv(s: State) {
    && Ascending(s.table)
    && Prefix(s.committed, s.table)
    && (NoDuplicates(s.committed) <==> !s.overtaken)
    && (s.commits == 0 <==> s.committed == [])
    && (forall k :: 0 <= k < |s.sessions| ==> SessionInv(s, s.sessions[k]))
  }

  /** No commit was overtaken, nor is one of the newest connection about to be. */
  ghost predicate Undisturbed(s: State) {
    && !s.overtaken
    && (s.sessions != [] ==> Current(s, s.sessions[|s.sessions| - 1]))
  }

  /** No commit has taken effect since the connection that is about to commit was told the largest id. */
  ghost predicate Current(s: State, a: Session) {
    forall i :: |a.answers| <= i < |a.sent| && a.sent[i].Commit? ==> a.seen == s.commits
  }

  /** The main theorem in the table's terms: the index is exactly the rows up to the largest id it reports. */
  lemma IndexIsPrefix(s: State)
    requires Inv(s)
    ensures forall id :: id in s.committed <==> id in s.table && id <= Max(s.committed)
  {
    forall id | id in s.table && id <= Max(s.committed)
      ensures id in s.committed
    {
      var i :| 0 <= i < |s.table| && s.table[i] == id;
      var m := Max(s.committed);
      assert id > 0;
      var j :| 0 <= j < |s.table| && s.table[j] == m;
      assert i <= j;
    }
  }

  // ---- One commit ----

  /** A row before the batch is at most `last`. */
  lemma BeforeBatch(table: seq<nat>, last: nat, batch: seq<nat>, p: nat, i: nat)
    requires Ascending(table) && NextRowsAt(table, last, batch, p) && i < |table|
    ensures i < p <==> table[i] <= last
  {
    if i < p {
      assert i == p - 1 || table[i] < table[p - 1];
    } else {
      assert i == p || table[p] < table[i];
    }
  }

  lemma BatchHas(table: seq<nat>, last: nat, batch: seq<nat>, p: nat, i: nat)
    requires Ascending(table) && NextRowsAt(table, last, batch, p) && i < |table|
    ensures table[i] in batch <==> p <= i < p + |batch|
  {
    if p <= i < p + |batch| {
      assert batch[i - p] == table[i];
    }
    if table[i] in batch {
      var b :| 0 <= b < |batch| && batch[b] == table[i];
      Distinct(table, p + b, i);
    }
  }

  lemma Distinct(table: seq<nat>, i: nat, j: nat)
    requires Ascending(table) && i < |table| && j < |table| && table[i] == table[j]
    ensures i == j
  {
  }

  /** Committing the rows that follow `last` keeps the index a prefix, whatever was committed since. */
  lemma CommitKeepsPrefix(table: seq<nat>, committed: seq<nat>, last: nat, batch: seq<nat>)
    requires Ascending(table) && Prefix(committed, table)
    requires last == 0 || last in committed
    requires NextRows(table, last, batch)
    ensures Prefix(committed + batch, table)
  {
    var p: nat :| NextRowsAt(table, last, batch, p);
    forall i, j | 0 <= i <= j < |table| && table[j] in committed + batch
      ensures table[i] in committed + batch
    {
      BeforeBatch(table, last, batch, p, i);
      BatchHas(table, last, batch, p, i);
      BatchHas(table, last, batch, p, j);
      if i < p {
        UpToLast(table, committed, last, i);
      }
    }
    forall id | id in batch
      ensures id in table
    {
      var b :| 0 <= b < |batch| && batch[b] == id;
      assert table[p + b] == id;
    }
  }

  lemma UpToLast(table: seq<nat>, committed: seq<nat>, last: nat, i: nat)
    requires Ascending(table) && Prefix(committed, table) && i < |table| && table[i] <= last
    requires last in committed
    ensures table[i] in committed
  {
    var m :| 0 <= m < |table| && table[m] == last;
    assert i <= m;
  }

  lemma {:induction false} MaxOfBoth(a: seq<nat>, b: seq<nat>)
    ensures Max(a + b) == if Max(b) > Max(a) then Max(b) else Max(a)
    decreases |b|
  {
    if b == [] {
      assert a + b == a;
    } else {
      MaxOfBoth(a, b[..|b| - 1]);
      assert (a + b)[..|a + b| - 1] == a + b[..|b| - 1];
    }
  }

  lemma BatchAscends(table: seq<nat>, last: nat, batch: seq<nat>)
    requires Ascending(table) && NextRows(table, last, batch)
    ensures NoDuplicates(batch)
    ensures forall i :: 0 <= i < |batch| ==> batch[i] > last
  {
    var p: nat :| NextRowsAt(table, last, batch, p);
    forall i | 0 <= i < |batch|
      ensures batch[i] > last
    {
      BeforeBatch(table, last, batch, p, p + i);
    }
    forall i, j | 0 <= i < j < |batch|
      ensures batch[i] != batch[j]
    {
      assert table[p + i] < table[p + j];
    }
  }

  lemma NoDuplicatesInBoth(a: seq<nat>, b: seq<nat>)
    requires NoDuplicates(a) && NoDuplicates(b)
    requires forall i, j :: 0 <= i < |a| && 0 <= j < |b| ==> a[i] != b[j]
    ensures NoDuplicates(a + b)
  {
  }

  /** The first row after `last` is in the index if anything above `last` is. */
  lemma FirstAbove(table: seq<nat>, committed: seq<nat>, last: nat, batch: seq<nat>)
    requires Ascending(table) && Prefix(committed, table)
    requires NextRows(table, last, batch) && batch != [] && last < Max(committed)
    ensures batch[0] in committed
  {
    var p: nat :| NextRowsAt(table, last, batch, p);
    var m := Max(committed);
    var j :| 0 <= j < |table| && table[j] == m;
    BeforeBatch(table, last, batch, p, j);
    assert table[p] == batch[0];
  }

  /** A commit inserts some row a second time exactly if the index has grown past `last`. */
  lemma CommitDuplicates(table: seq<nat>, committed: seq<nat>, last: nat, batch: seq<nat>)
    requires Ascending(table) && Prefix(committed, table) && NoDuplicates(committed)
    requires last == 0 || last in committed
    requires NextRows(table, last, batch) && batch != []
    ensures NoDuplicates(committed + batch) <==> last == Max(committed)
  {
    hide Prefix, NextRows;
    var all := committed + batch;
    BatchAscends(table, last, batch);
    if last == Max(committed) {
      NoDuplicatesInBoth(committed, batch);
    } else {
      FirstAbove(table, committed, last, batch);
      var i :| 0 <= i < |committed| && committed[i] == batch[0];
      assert all[i] == all[|committed|];
    }
  }

  lemma CommitRaises(table: seq<nat>, committed: seq<nat>, last: nat, batch: seq<nat>)
    requires Ascending(table) && NextRows(table, last, batch) && batch != []
    ensures Max(committed + batch) >= Max(committed) && Max(committed + batch) > last
  {
    hide Max, NextRows;
    BatchAscends(table, last, batch);
    MaxOfBoth(committed, batch);
    assert batch[0] > last && batch[0] <= Max(batch);
  }

  // ---- Every step keeps the invariant ----

  /** The invariant of a connection only looks at the index and the table, which only grow. */
  lemma SessionKeptByCommit(s: State, t: State, a: Session, last: nat, batch: seq<nat>)
    requires Inv(s) && SessionInv(s, a) && (last == 0 || last in s.committed)
    requires NextRows(s.table, last, batch) && batch != []
    requires t.table == s.table && t.committed == s.committed + batch && t.commits == s.commits + 1
    requires !t.overtaken ==> !s.overtaken && last == Max(s.committed)
    ensures SessionInv(t, a)
  {
    hide Max, NextRows, NoDuplicates, Prefix;
    CommitRaises(s.table, s.committed, last, batch);
  }

  lemma {:induction false} AnswerKeepsInv(s: State, k: nat, answer: Answer, keep: bool)
    requires Inv(s) && k < |s.sessions| && MayAnswer(s, s.sessions[k], answer)
    ensures Inv(AnswerOn(s, k, answer, keep))
  {
    hide Prefix, NoDuplicates, Max, NextRows;
    var a, t := s.sessions[k], AnswerOn(s, k, answer, keep);
    var b := t.sessions[k];
    assert SessionInv(s, a);
    if Commits(a, answer) {
      var batch := a.open.value;
      assert Prepared(a, s.table);
      CommitKeepsPrefix(s.table, s.committed, a.last, batch);
      if NoDuplicates(s.committed) {
        CommitDuplicates(s.table, s.committed, a.last, batch);
      } else {
        DuplicatesStay(s.committed, batch);
      }
      forall i | 0 <= i < |t.sessions|
        ensures SessionInv(t, t.sessions[i])
      {
        if i == k {
          SessionKeptByCommit(s, t, a, a.last, batch);
        } else {
          SessionKeptByCommit(s, t, s.sessions[i], a.last, batch);
        }
      }
    } else {
      MaxMember(s.committed);
      forall i | 0 <= i < |t.sessions|
        ensures SessionInv(t, t.sessions[i])
      {
        assert SessionInv(s, s.sessions[i]);
      }
    }
  }

  lemma MaxMember(ids: seq<nat>)
    ensures Max(ids) == 0 || Max(ids) in ids
  {
  }

  lemma DuplicatesStay(a: seq<nat>, b: seq<nat>)
    requires !NoDuplicates(a)
    ensures !NoDuplicates(a + b)
  {
    var i, j :| 0 <= i < j < |a| && a[i] == a[j];
    assert (a + b)[i] == (a + b)[j];
  }

  lemma NextRowsStay(table: seq<nat>, id: nat, last: nat, batch: seq<nat>)
    requires NextRows(table, last, batch) && batch != []
    ensures NextRows(table + [id], last, batch)
  {
    var p: nat :| NextRowsAt(table, last, batch, p);
    assert NextRowsAt(table + [id], last, batch, p);
  }

  /** The table is append-only with ascending ids. */
  lemma NewRowKeepsInv(s: State, id: nat)
    requires Inv(s) && id > Max(s.table)
    ensures Inv(NewRow(s, id))
  {
    hide NextRows, NoDuplicates, Max;
    var t := NewRow(s, id);
    MaxBounds(s.table);
    assert id !in s.committed;
    forall k | 0 <= k < |t.sessions|
      ensures SessionInv(t, t.sessions[k])
    {
      var a := s.sessions[k];
      assert SessionInv(s, a);
      if a.open.Some? && a.open.value != [] && NextRows(s.table, a.last, a.open.value) {
        NextRowsStay(s.table, id, a.last, a.open.value);
      }
    }
  }

  lemma MaxBounds(ids: seq<nat>)
    ensures forall i :: 0 <= i < |ids| ==> ids[i] <= Max(ids)
  {
  }

  lemma NothingCommitted(s: State)
    requires Inv(s)
    ensures Max(s.committed) == 0 <==> s.commits == 0
  {
    if s.committed != [] {
      assert s.committed[0] in s.committed;
      assert s.committed[0] in s.table;
      assert s.committed[0] > 0;
    }
  }

  lemma ConnectKeepsInv(s: State)
    requires Inv(s)
    ensures Inv(Connect(s))
  {
    hide Prefix, NoDuplicates, NextRows, Max;
    var t := Connect(s);
    NothingCommitted(s);
    forall k | 0 <= k < |t.sessions|
      ensures SessionInv(t, t.sessions[k])
    {
      if k < |s.sessions| {
        assert SessionInv(s, s.sessions[k]);
      }
    }
  }

  /** A commit may be sent when nothing is waiting and the rows that follow `last` are in place. */
  lemma ReceiveKeepsInv(s: State, k: nat, request: Request)
    requires Inv(s) && k < |s.sessions|
    requires request.Commit? ==> !Waiting(s.sessions[k]) && Prepared(s.sessions[k], s.table)
    ensures Inv(Receive(s, k, request))
  {
    hide Prefix, NoDuplicates, NextRows, Max, Prepared;
    var t := Receive(s, k, request);
    forall i | 0 <= i < |t.sessions|
      ensures SessionInv(t, t.sessions[i])
    {
      assert SessionInv(s, s.sessions[i]);
      if i == k {
        PreparedReceives(s.sessions[k], request, s.table);
      }
    }
  }

  lemma PreparedReceives(a: Session, request: Request, table: seq<nat>)
    requires CommitsPrepared(a, table) && |a.answers| <= |a.sent|
    requires request.Commit? ==> !Waiting(a) && Prepared(a, table)
    ensures CommitsPrepared(a.(sent := a.sent + [request]), table)
  {
    hide NextRows;
    var b := a.(sent := a.sent + [request]);
    forall i | |b.answers| <= i < |b.sent| && b.sent[i].Commit?
      ensures i == |b.answers| && Prepared(b, table)
    {
      if i < |a.sent| {
        assert a.sent[i].Commit?;
      }
    }
  }

  // ---- Runs in which old connections fall silent ----

  lemma AnswerKeepsUndisturbed(s: State, k: nat, answer: Answer, keep: bool)
    requires Inv(s) && Undisturbed(s) && k == |s.sessions| - 1 && MayAnswer(s, s.sessions[k], answer)
    ensures Undisturbed(AnswerOn(s, k, answer, keep))
  {
    hide Prefix, NoDuplicates, NextRows, Max, Prepared;
    var a, t := s.sessions[k], AnswerOn(s, k, answer, keep);
    var b := t.sessions[k];
    assert SessionInv(s, a);
    forall i | |b.answers| <= i < |b.sent| && b.sent[i].Commit?
      ensures b.seen == t.commits
    {
      assert a.sent[i].Commit?;
    }
  }

  lemma ReceiveKeepsUndisturbed(s: State, k: nat, request: Request)
    requires Undisturbed(s) && k < |s.sessions|
    requires request.Commit? ==> s.sessions[k].seen == s.commits
    ensures Undisturbed(Receive(s, k, request))
  {
    var t := Receive(s, k, request);
    var n := |s.sessions| - 1;
    var a, b := s.sessions[n], t.sessions[n];
    forall i | |b.answers| <= i < |b.sent| && b.sent[i].Commit?
      ensures b.seen == t.commits
    {
      if i < |a.sent| {
        assert a.sent[i].Commit?;
      }
    }
  }

  // ---- Runs ----

  /** The newest exchange of an idle connection: it asked for the largest id and was told. */
  predicate JustTold(a: Session) {
    !Waiting(a) && a.sent != [] && |a.answers| == |a.sent| && a.sent[|a.sent| - 1].MaxId? &&
    a.answers[|a.answers| - 1].Good? && a.answers[|a.answers| - 1].value < ID_LIMIT
  }

  /** The order of requests on a connection: a transaction begins right after the largest id was told, takes the rows that
      follow that id one by one, each after the previous answer, and is committed when it has some. A rollback may be sent
      at any time. */
  ghost predicate MaySend(a: Session, table: seq<nat>, request: Request) {
    match request
    case MaxId => !Waiting(a)
    case Begin => JustTold(a)
    case Insert(id) => !Waiting(a) && a.open.Some? && NextRows(table, a.last, a.open.value + [id])
    case Commit => !Waiting(a) && Prepared(a, table)
    case Rollback => true
    case Other => true
  }

  /** One step: a new row, a new connection, a request on the newest connection, or an answer on any. */
  ghost predicate Step(s: State, t: State) {
    || (exists id :: id > Max(s.table) && t == NewRow(s, id))
    || t == Connect(s)
    || (exists k: nat, request :: k == |s.sessions| - 1 && MaySend(s.sessions[k], s.table, request) && t == Receive(s, k, request))
    || (exists k: nat, answer, keep :: k < |s.sessions| && MayAnswer(s, s.sessions[k], answer) && t == AnswerOn(s, k, answer, keep))
  }

  /** Every step keeps the invariant. */
  lemma StepKeepsInv(s: State, t: State)
    requires Inv(s) && Step(s, t)
    ensures Inv(t)
  {
    hide Inv, Prepared, MayAnswer, AnswerOn, NewRow, Receive, Max;
    if id :| id > Max(s.table) && t == NewRow(s, id) {
      NewRowKeepsInv(s, id);
    } else if t == Connect(s) {
      ConnectKeepsInv(s);
    } else if k: nat, request :| k == |s.sessions| - 1 && MaySend(s.sessions[k], s.table, request) && t == Receive(s, k, request) {
      ReceiveKeepsInv(s, k, request);
    } else {
      var k: nat, answer, keep :| k < |s.sessions| && MayAnswer(s, s.sessions[k], answer) && t == AnswerOn(s, k, answer, keep);
      AnswerKeepsInv(s, k, answer, keep);
    }
  }

  /** A path of steps from one state to another. */
  ghost predicate Path(run: seq<State>, s: State, t: State) {
    |run| > 0 && run[0] == s && run[|run| - 1] == t && forall i :: 0 <= i < |run| - 1 ==> Step(run[i], run[i + 1])
  }

  /** Over every run: every state on it keeps the invariant. */
  lemma {:induction false} PathKeepsInv(run: seq<State>, s: State, t: State)
    requires Inv(s) && Path(run, s, t)
    ensures forall i :: 0 <= i < |run| ==> Inv(run[i])
    decreases |run|
  {
    hide Inv, Step;
    if |run| > 1 {
      var n := |run| - 1;
      PathKeepsInv(run[..n], s, run[n - 1]);
      assert Inv(run[..n][n - 1]);
      assert Step(run[n - 1], run[n - 1 + 1]);
      StepKeepsInv(run[n - 1], run[n]);
    }
  }

  function Initially(table: seq<nat>): State { State(table, [], 0, false, []) }

  /** The states that a run from an empty index leads to. */
  ghost predicate Reachable(s: State) {
    exists table, run :: Ascending(table) && Path(run, Initially(table), s)
  }

  lemma ReachableInitially(table: seq<nat>)
    requires Ascending(table)
    ensures Reachable(Initially(table))
  {
    assert Path([Initially(table)], Initially(table), Initially(table));
  }

  lemma ReachableStep(s: State, t: State)
    requires Reachable(s) && Step(s, t)
    ensures Reachable(t)
  {
    hide Step, Ascending;
    var table, run :| Ascending(table) && Path(run, Initially(table), s);
    assert Path([s, t], s, t);
    var all := Joined(run, [s, t], Initially(table), s, t);
  }

  /** Every reachable state keeps the invariant. */
  lemma ReachableInv(s: State)
    requires Reachable(s)
    ensures Inv(s)
  {
    hide Step;
    var table, run :| Ascending(table) && Path(run, Initially(table), s);
    InitiallyInv(table);
    PathKeepsInv(run, Initially(table), s);
  }

  lemma InitiallyInv(table: seq<nat>)
    requires Ascending(table)
    ensures Inv(Initially(table))
  {
  }

  /** In every reachable state the index is exactly the rows up to its largest id, and a row is in it twice exactly if some
      commit was overtaken. */
  lemma ReachableIndex(s: State)
    requires Reachable(s)
    ensures forall id :: id in s.committed <==> id in s.table && id <= Max(s.committed)
    ensures NoDuplicates(s.committed) <==> !s.overtaken
  {
    hide Reachable, NoDuplicates;
    ReachableInv(s);
    IndexIsPrefix(s);
  }

  lemma Joined(run: seq<State>, tail: seq<State>, s: State, t: State, u: State) returns (all: seq<State>)
    requires Path(run, s, t) && Path(tail, t, u)
    ensures Path(all, s, u) && run <= all
  {
    hide Step;
    all := run + tail[1..];
    forall i | 0 <= i < |all| - 1
      ensures Step(all[i], all[i + 1])
    {
      if i >= |run| - 1 {
        assert all[i] == tail[i - (|run| - 1)] && all[i + 1] == tail[i - (|run| - 1) + 1];
      }
    }
  }

  // ---- A run with duplicates ----

  /** A request is received and answered at once. */
  lemma Exchange(s: State, k: nat, request: Request, value: nat) returns (run: seq<State>, t: State)
    requires k < |s.sessions| && |s.sessions[k].answers| == |s.sessions[k].sent|
    requires k == |s.sessions| - 1 && MaySend(s.sessions[k], s.table, request)
    requires MayAnswer(Receive(s, k, request), Receive(s, k, request).sessions[k], Good(value))
    ensures t == AnswerOn(Receive(s, k, request), k, Good(value), true) && Path(run, s, t)
  {
    var m := Receive(s, k, request);
    t := AnswerOn(m, k, Good(value), true);
    assert Step(s, m);
    assert Step(m, t);
    run := [s, m, t];
  }

  /** The updater's requests for the one row of the table, up to the commit. */
  function Session1(n: nat): Session
    requires n <= 4
  {
    match n
    case 0 => Session([], [], None, 0, 0)
    case 1 => Session([MaxId], [Good(0)], None, 0, 0)
    case 2 => Session([MaxId, Begin], [Good(0), Good(0)], Some([]), 0, 0)
    case 3 => Session([MaxId, Begin, Insert(1)], [Good(0), Good(0), Good(0)], Some([1]), 0, 0)
    case 4 => Session([MaxId, Begin, Insert(1), Commit], [Good(0), Good(0), Good(0)], Some([1]), 0, 0)
  }

  function Session1Request(n: nat): Request
    requires n < 3
  {
    match n
    case 0 => MaxId
    case 1 => Begin
    case 2 => Insert(1)
  }

  function World1(committed: seq<nat>, commits: nat, overtaken: bool, sessions: seq<Session>): State {
    State([1], committed, commits, overtaken, sessions)
  }

  lemma Session1Next(n: nat)
    requires n < 4
    ensures Session1(n + 1).sent == Session1(n).sent + [if n < 3 then Session1Request(n) else Commit]
    ensures n < 3 ==> Session1(n + 1).answers == Session1(n).answers + [Good(0)]
    ensures n == 3 ==> Session1(4).answers == Session1(3).answers
  {
  }

  lemma Session1MaySend(n: nat)
    requires n < 4
    ensures MaySend(Session1(n), [1], if n < 3 then Session1Request(n) else Commit)
  {
    var none: seq<nat> := [];
    assert none + [1] == [1];
    assert NextRowsAt([1], 0, [1], 0);
  }

  lemma Session1Step(committed: seq<nat>, commits: nat, overtaken: bool, ss: seq<Session>, k: nat, n: nat) returns (run: seq<State>)
    requires k == |ss| - 1 && n < 3 && ss[k] == Session1(n) && (n == 0 ==> committed == [] && commits == 0)
    ensures Path(run, World1(committed, commits, overtaken, ss), World1(committed, commits, overtaken, ss[k := Session1(n + 1)]))
  {
    hide MaySend;
    var s, request := World1(committed, commits, overtaken, ss), Session1Request(n);
    var a, m := s.sessions[k], Receive(s, k, request);
    var sent := a.(sent := a.sent + [request]);
    assert m.sessions[k] == sent && sent.sent[|sent.answers|] == request;
    Session1Next(n);
    Session1MaySend(n);
    var t;
    run, t := Exchange(s, k, request, 0);
    var nothing: seq<nat> := [];
    assert nothing + [1] == [1];
    assert Answering(m, sent, Good(0), true) == Session1(n + 1);
    assert t.sessions == ss[k := Session1(n + 1)];
  }

  lemma Session1Commit(committed: seq<nat>, commits: nat, overtaken: bool, ss: seq<Session>, k: nat) returns (run: seq<State>)
    requires k == |ss| - 1 && ss[k] == Session1(3)
    ensures Path(run, World1(committed, commits, overtaken, ss), World1(committed, commits, overtaken, ss[k := Session1(4)]))
  {
    var s, t := World1(committed, commits, overtaken, ss), World1(committed, commits, overtaken, ss[k := Session1(4)]);
    hide MaySend;
    Session1Next(3);
    Session1MaySend(3);
    assert Receive(s, k, Commit).sessions == ss[k := Session1(4)];
    assert Step(s, t);
    run := [s, t];
  }

  const SESSION1_DONE := Session([MaxId, Begin, Insert(1), Commit], [Good(0), Good(0), Good(0), Good(0)], None, 0, 0)

  lemma CommitTakesEffect(committed: seq<nat>, commits: nat, overtaken: bool, ss: seq<Session>, k: nat) returns (run: seq<State>)
    requires k < |ss| && ss[k] == Session1(4)
    ensures Path(run, World1(committed, commits, overtaken, ss),
                 World1(committed + [1], commits + 1, overtaken || commits != 0, ss[k := SESSION1_DONE]))
    ensures [] + [1] == [1] && [1] + [1] == [1, 1]
  {
    var s := World1(committed, commits, overtaken, ss);
    var t := AnswerOn(s, k, Good(0), true);
    assert t.sessions[k] == SESSION1_DONE;
    assert t.sessions == ss[k := SESSION1_DONE];
    assert Step(s, t);
    run := [s, t];
  }

  lemma Reconnects(committed: seq<nat>, commits: nat, overtaken: bool, ss: seq<Session>) returns (run: seq<State>)
    ensures Path(run, World1(committed, commits, overtaken, ss), World1(committed, commits, overtaken, ss + [Session1(0)]))
  {
    var s := World1(committed, commits, overtaken, ss);
    assert Step(s, Connect(s));
    run := [s, Connect(s)];
  }

  lemma UpToCommit(committed: seq<nat>, commits: nat, overtaken: bool, ss: seq<Session>, k: nat) returns (run: seq<State>)
    requires k == |ss| - 1 && ss[k] == Session1(1)
    ensures Path(run, World1(committed, commits, overtaken, ss), World1(committed, commits, overtaken, ss[k := Session1(4)]))
  {
    hide Path, Session1, World1;
    var u, v := ss[k := Session1(2)], ss[k := Session1(3)];
    assert u[k := Session1(3)] == v && v[k := Session1(4)] == ss[k := Session1(4)];
    var a := Session1Step(committed, commits, overtaken, ss, k, 1);
    var b := Session1Step(committed, commits, overtaken, u, k, 2);
    var c := Session1Commit(committed, commits, overtaken, v, k);
    run := Joined(a, b, World1(committed, commits, overtaken, ss), World1(committed, commits, overtaken, u), World1(committed, commits, overtaken, v));
    run := Joined(run, c, World1(committed, commits, overtaken, ss), World1(committed, commits, overtaken, v), World1(committed, commits, overtaken, ss[k := Session1(4)]));
  }

  /** Duplicates do occur, with the requests of the updater in their order: the client gives up on a commit that was
      already sent, connects again and is told that nothing is committed, and the first commit takes effect only then.
      The same row is inserted twice. */
  lemma LateCommitDuplicates() returns (run: seq<State>, t: State, i: nat)
    ensures Path(run, Initially([1]), t) && (forall j :: 0 <= j < |run| ==> Inv(run[j]))
    ensures i < |run| && run[i].sessions == [Session1(4), Session1(1)] && run[i].committed == []
    ensures t.sessions == [SESSION1_DONE, SESSION1_DONE] && t.committed == [1, 1] && t.overtaken
  {
    StartIs();
    hide Path, Session1, Inv;
    var s0 := [Session1(0)];
    var s1, s2 := s0[0 := Session1(1)], [Session1(4)];
    var s3 := s2 + [Session1(0)];
    var s4 := s3[1 := Session1(1)];
    var s5 := s4[0 := SESSION1_DONE];
    var s6 := s5[1 := Session1(4)];
    var s7 := s6[1 := SESSION1_DONE];
    assert s1[0 := Session1(4)] == s2;
    var start := Initially([1]);
    run := Reconnects([], 0, false, []);
    assert [] + [Session1(0)] == s0;
    var next := Session1Step([], 0, false, s0, 0, 0);
    run := Joined(run, next, start, World1([], 0, false, s0), World1([], 0, false, s1));
    next := UpToCommit([], 0, false, s1, 0);
    run := Joined(run, next, start, World1([], 0, false, s1), World1([], 0, false, s2));
    next := Reconnects([], 0, false, s2);
    run := Joined(run, next, start, World1([], 0, false, s2), World1([], 0, false, s3));
    next := Session1Step([], 0, false, s3, 1, 0);
    run := Joined(run, next, start, World1([], 0, false, s3), World1([], 0, false, s4));
    PathEnds(run, start, World1([], 0, false, s4));
    i := |run| - 1;
    ghost var before := run;
    next := CommitTakesEffect([], 0, false, s4, 0);
    run := Joined(run, next, start, World1([], 0, false, s4), World1([1], 1, false, s5));
    next := UpToCommit([1], 1, false, s5, 1);
    run := Joined(run, next, start, World1([1], 1, false, s5), World1([1], 1, false, s6));
    next := CommitTakesEffect([1], 1, false, s6, 1);
    run := Joined(run, next, start, World1([1], 1, false, s6), World1([1, 1], 2, true, s7));
    t := World1([1, 1], 2, true, s7);
    assert before <= run && run[i] == before[i];
    PathKeepsInv(run, start, t);
  }

  lemma PathEnds(run: seq<State>, s: State, t: State)
    requires Path(run, s, t)
    ensures |run| > 0 && run[|run| - 1] == t
  {
  }

  lemma StartIs()
    ensures Initially([1]) == World1([], 0, false, []) && Inv(Initially([1]))
    ensures Session1(0) == Session([], [], None, 0, 0)
  {
  }
}
