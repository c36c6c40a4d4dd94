/** The endless loop of pkg/fpindex/updater.go that copies fingerprints from the table into the index. */
module Updater {
  import opened Results
  import opened IndexProtocol
  import opened HelpfulServer
  import opened FpIndex

  const UPDATE_BATCH_SIZE := 10000

  // Delays in nanoseconds.
  const NO_DELAY := 0
  const MIN_DELAY := 10_000_000
  const MAX_DELAY := 60_000_000_000

  /** No commit was sent on connection `k`. */
  ghost predicate NoCommit(s: State, t: State, k: nat) {
    && k < |s.sessions| == |t.sessions| && s.sessions[k].sent <= t.sessions[k].sent
    && forall i :: |s.sessions[k].sent| <= i < |t.sessions[k].sent| ==> !t.sessions[k].sent[i].Commit?
  }

  /** Connection `k` is idle and was just told `last`; in a quiet world nothing was committed since. */
  ghost predicate Told(mode: Mode, s: State, k: nat, last: nat) {
    && k < |s.sessions| && JustTold(s.sessions[k]) && s.sessions[k].last == last
    && (mode.quiet && k == |s.sessions| - 1 ==> s.sessions[k].seen == s.commits)
  }

  /** A server that keeps transactions does so on connection `k`. */
  ghost predicate StaysOpen(mode: Mode, s: State, t: State, k: nat)
    requires k < |s.sessions| == |t.sessions|
  {
    mode.keeping && s.sessions[k].open.Some? ==> t.sessions[k].open.Some?
  }

  /** The largest id in the index, as the server reports it; a report that is no 32-bit number is an error that leaves the
      connection OK. */
  method GetLastFingerprintID(ctx: Context, idx: IndexClient) returns (r: Result<nat, ClientError>)
    requires idx.Valid()
    modifies idx`hasError, idx`numRequests, idx`numResponses, idx`consumed, idx.world, ctx
    ensures idx.Valid() && |idx.world.s.sessions| == |old(idx.world.s.sessions)|
    ensures Happens(old(idx.Counters()), idx.Counters()) && idx.closed == old(idx.closed)
    ensures r == Failure(NotANumber) && old(idx.IsOK()) ==> idx.IsOK()
    ensures old(idx.IsOK()) && r.Success? ==> idx.IsOK() && Told(idx.world.mode, idx.world.s, idx.session, r.value)
    ensures old(idx.IsOK()) && idx.IsOK() ==> StaysOpen(idx.world.mode, old(idx.world.s), idx.world.s, idx.session)
    ensures NoCommit(old(idx.world.s), idx.world.s, idx.session) && Calm(idx.world.mode, old(idx.world.s), idx.world.s)
    ensures old(idx.IsOK()) && r.Success? ==> Heard(old(idx.Session()), idx.Session(), r.value)
    ensures old(idx.Helped(ctx)) && Max(old(idx.world.s.committed)) < ID_LIMIT ==>
              && r == Success(Max(old(idx.world.s.committed))) && idx.Helped(ctx)
              && Unmoved(old(idx.world.s), idx.world.s, idx.session)
    ensures Kept(idx.world.mode, old(idx.world.s)) && old(idx.IsOK()) && idx.session == |old(idx.world.s.sessions)| - 1 ==>
              Kept(idx.world.mode, idx.world.s)
  {
    hide Kept, Sound, Outcome, Calm, Max, Served, Heard, Unmoved;
    ghost var s0 := idx.world.s;
    SoundAt(s0, idx.session);
    var reply := idx.SendRequest(ctx, MaxId);
    if old(idx.Helped(ctx)) {
      ServedResult(idx.world.mode, s0, idx.world.s, idx.session, MaxId, reply);
      ServedMaxId(s0, idx.world.s, idx.session);
    }
    assert Happens(old(idx.Counters()), idx.Counters());
    if old(idx.IsOK()) && idx.IsOK() {
      ToldIs(idx.world.mode, s0, idx.world.s, idx.session, reply);
    }
    if reply.Failure? {
      return reply;
    }
    if reply.value >= ID_LIMIT {
      return Failure(NotANumber);
    }
    r := reply;
  }

  /** From `a` to `b` the largest id was asked for, and `last` was the answer. */
  ghost predicate Heard(a: Session, b: Session, last: nat) {
    Fulfilled(a, b, [MaxId]) && b.answers[|a.answers|] == Good(last)
  }

  /** The table, the index and the transaction of the newest connection are as before. */
  ghost predicate Unmoved(s: State, t: State, k: nat) {
    && t.table == s.table && t.committed == s.committed && k == |t.sessions| - 1 == |s.sessions| - 1
    && t.sessions[k].open == s.sessions[k].open
  }

  lemma ServedMaxId(s: State, t: State, k: nat)
    requires k == |s.sessions| - 1 && Served(s, t, MaxId)
    ensures Unmoved(s, t, k)
  {
    hide Serve;
    ServeMeans(s, MaxId);
  }

  lemma ToldIs(mode: Mode, s: State, t: State, k: nat, r: Result<nat, ClientError>)
    requires k < |s.sessions| && |s.sessions[k].answers| == |s.sessions[k].sent|
    requires Outcome(mode, s, t, k, MaxId, r) && Calm(mode, s, t)
    ensures |t.sessions| == |s.sessions| && StaysOpen(mode, s, t, k)
    ensures r.Success? && r.value < ID_LIMIT ==> Told(mode, t, k, r.value) && Heard(s.sessions[k], t.sessions[k], r.value)
  {
    hide Committing;
    if k == |s.sessions| - 1 {
      IdleNotCommitting(s);
    }
  }

  lemma ToldLater(mode: Mode, s: State, t: State, k: nat, last: nat)
    requires Sound(s) && Later(mode, s, t) && Told(mode, s, k, last)
    ensures Told(mode, t, k, last)
  {
    hide SessionLater, Committing;
    LaterWatched(mode, s, t, k);
    if k == |s.sessions| - 1 {
      IdleNotCommitting(s);
    }
  }

  /** The query for the next rows. It may fail, as it does on an id that is no 32-bit number; and as errors of the row cursor are not looked at, the result may also
      silently end early: `complete` tells. */
  method GetNextFingerprints(world: World, lastID: nat, limit: nat) returns (r: Option<seq<nat>>, ghost complete: bool)
    requires Sound(world.s)
    modifies world
    ensures Sound(world.s) && Later(world.mode, old(world.s), world.s)
    ensures Kept(world.mode, old(world.s)) ==> Kept(world.mode, world.s)
    ensures r.Some? ==> NextRows(world.s.table, lastID, r.value) && |r.value| <= limit
    ensures r == Some([]) && complete && limit > 0 && Ascending(world.s.table) ==> forall id :: id in world.s.table ==> id <= lastID
    ensures world.mode.helpful ==> world.s == Settled(old(world.s))
    ensures world.mode.helpful && SmallIds(world.s.table) && Ascending(world.s.table) ==>
              r.Some? && (|r.value| == limit || forall id :: id in world.s.table ==> id <= lastID || id in r.value)
  {
    hide Later, Kept, Ascending, Settled;
    world.Elapse();
    complete := false;
    var failed := *;
    if failed && !world.mode.helpful {
      return None, complete;
    }
    var table := world.s.table;
    var p := 0;
    while p < |table| && table[p] <= lastID
      invariant 0 <= p <= |table| && forall i :: 0 <= i < p ==> table[i] <= lastID
    {
      p := p + 1;
    }
    var rows, ended := [], false;
    while p + |rows| < |table| && |rows| < limit && !ended
      invariant p + |rows| <= |table| && |rows| <= limit
      invariant forall i :: 0 <= i < |rows| ==> rows[i] == table[p + i]
      invariant ended ==> !world.mode.helpful
      decreases |table| - p - |rows|, !ended
    {
      var stop := *;
      if stop && !world.mode.helpful {
        ended := true;
      } else if table[p + |rows|] >= ID_LIMIT {
        return None, complete;
      } else {
        rows := rows + [table[p + |rows|]];
      }
    }
    assert NextRowsAt(table, lastID, rows, p);
    complete := !ended;
    r := Some(rows);
    if |rows| < limit && !ended && Ascending(table) {
      RestFetched(table, lastID, rows, p);
    }
  }

  /** All ids fit the column they come from. */
  ghost predicate SmallIds(table: seq<nat>) {
    forall i :: 0 <= i < |table| ==> table[i] < 4_294_967_296
  }

  lemma RestFetched(table: seq<nat>, last: nat, rows: seq<nat>, p: nat)
    requires Ascending(table) && NextRowsAt(table, last, rows, p) && p + |rows| == |table|
    ensures forall id :: id in table ==> id <= last || id in rows
  {
    forall id | id in table
      ensures id <= last || id in rows
    {
      var i :| 0 <= i < |table| && table[i] == id;
      BeforeBatch(table, last, rows, p, i);
      BatchHas(table, last, rows, p, i);
    }
  }

  /** The rows just fetched may be inserted. */
  lemma FetchedReady(mode: Mode, s: State, k: nat, last: nat, rows: seq<nat>)
    requires Told(mode, s, k, last) && k == |s.sessions| - 1 && NextRows(s.table, last, rows)
    ensures ReadyForRows(mode, s, k, rows)
  {
  }

  lemma NoCommitThen(s: State, t: State, u: State, k: nat)
    requires NoCommit(s, t, k) && NoCommit(t, u, k)
    ensures NoCommit(s, u, k)
  {
  }

  lemma SameSent(s: State, t: State, k: nat)
    requires k < |s.sessions| == |t.sessions| && t.sessions[k].sent == s.sessions[k].sent
    ensures NoCommit(s, t, k)
  {
  }

  lemma BeginOnly(s: State, t: State, k: nat)
    requires AtMost(s, t, k, Begin)
    ensures NoCommit(s, t, k)
  {
  }

  /** A failed insert that found the transaction open leaves it open. */
  lemma LeftOpenStays(mode: Mode, s: State, t: State, k: nat)
    requires k < |s.sessions| == |t.sessions| && AtMost(s, t, k, Begin) && s.sessions[k].open.Some?
    requires LeftOpen(mode, s.sessions[k], t.sessions[k])
    ensures StaysOpen(mode, s, t, k)
  {
    var a, b := s.sessions[k], t.sessions[k];
    if Begun(a, b) {
      assert b.sent[|b.sent| - 1].Begin?;
    }
  }

  /** What the connection was told is in the index, and in a quiet world it is the largest id there. */
  lemma ToldMax(mode: Mode, s: State, k: nat, last: nat)
    requires Kept(mode, s) && Told(mode, s, k, last)
    ensures Ascending(s.table) && (last == 0 || last in s.committed)
    ensures mode.quiet && k == |s.sessions| - 1 ==> last == Max(s.committed)
  {
    hide Reachable, NoDuplicates, Prefix, CommitsPrepared, Max;
    ReachableInv(s);
    assert SessionInv(s, s.sessions[k]);
  }

  /** The rows that were inserted follow the id that was told; so the largest id has risen above it if there are any. */
  ghost predicate Progress(s: State, last: nat, rows: seq<nat>) {
    && (last == 0 || last in s.committed) && NextRows(s.table, last, rows)
    && (forall id :: id in rows ==> id in s.committed)
    && (rows != [] ==> Max(s.committed) > last)
  }

  lemma InsertedRows(s: State, t: State, last: nat, rows: seq<nat>)
    requires Ascending(s.table) && (last == 0 || last in s.committed) && NextRows(s.table, last, rows)
    requires Grown(s, t) && (rows == [] ==> t == s) && forall id :: id in rows ==> id in t.committed
    ensures Progress(t, last, rows)
  {
    hide NextRows;
    BatchAscends(s.table, last, rows);
    if rows != [] {
      NextRowsGrow(s.table, t.table, last, rows);
      assert rows[0] in rows;
      MaxBounds(t.committed);
    }
  }

  /** From `a` to `b` one pass went over the connection: the largest id was asked for and told, and the rows were put into
      the index if there were any; every request was answered OK. */
  ghost predicate Passed(a: Session, b: Session, last: nat, rows: seq<nat>) {
    Fulfilled(a, b, [MaxId] + WritesOf(rows)) && b.answers[|a.answers|] == Good(last)
  }

  lemma PassedIs(a: Session, m: Session, b: Session, last: nat, rows: seq<nat>)
    requires Heard(a, m, last) && Fulfilled(m, b, WritesOf(rows))
    ensures Passed(a, b, last, rows)
  {
    hide InsertsOf;
    assert a.sent + [MaxId] + WritesOf(rows) == a.sent + ([MaxId] + WritesOf(rows));
  }

  /** The first `n` rows are in the index, or all if there are fewer. */
  ghost predicate Covered(s: State, n: int) {
    forall i :: 0 <= i < n && i < |s.table| ==> s.table[i] in s.committed
  }

  /** A pass in a helpful world has put the next rows into the index, as many as fit one pass. */
  ghost predicate NextInserted(s: State, t: State, rows: seq<nat>) {
    && t.table == s.table && t.committed == s.committed + rows && NextRows(s.table, Max(s.committed), rows)
    && |rows| <= 10000 && (|rows| == 10000 || forall id :: id in t.table ==> id in t.committed)
  }

  lemma SmallMax(mode: Mode, s: State)
    requires Kept(mode, s) && SmallIds(s.table)
    ensures Ascending(s.table) && Max(s.committed) < ID_LIMIT
  {
    hide Reachable, NoDuplicates, CommitsPrepared, Undisturbed;
    ReachableInv(s);
  }

  lemma RestInserted(mode: Mode, s: State, t: State, k: nat, rows: seq<nat>)
    requires Kept(mode, s) && Extended(s, t, k, rows) && NextRows(s.table, Max(s.committed), rows) && |rows| <= 10000
    requires |rows| == 10000 || forall id :: id in s.table ==> id <= Max(s.committed) || id in rows
    ensures NextInserted(s, t, rows)
  {
    hide Reachable, NoDuplicates, Max, NextRows, Undisturbed;
    ReachableIndex(s);
  }

  /** Where the first `n` rows were in the index, 10000 more are, if there are that many. */
  lemma CoveredMore(mode: Mode, s: State, t: State, rows: seq<nat>, n: nat)
    requires Kept(mode, s) && NextInserted(s, t, rows) && Covered(s, n)
    ensures Covered(t, n + 10000)
  {
    hide Reachable, NoDuplicates, Max, Undisturbed;
    ReachableInv(s);
    IndexIsPrefix(s);
    MaxBounds(s.committed);
    var last := Max(s.committed);
    var p: nat :| NextRowsAt(s.table, last, rows, p);
    assert forall id :: id in s.committed ==> id <= last;
    assert p < |s.table| ==> s.table[p] !in s.committed;
    forall i | 0 <= i < n + 10000 && i < |t.table|
      ensures t.table[i] in t.committed
    {
      BeforeBatch(s.table, last, rows, p, i);
      BatchHas(s.table, last, rows, p, i);
    }
  }

  /** What a pass fetches over a connection that is OK: the largest id in the index and the rows that follow it. */
  method Fetch(ctx: Context, idx: IndexClient) returns (fetched: Option<(nat, seq<nat>)>, ghost complete: bool)
    requires idx.Valid() && idx.IsOK() && idx.tx == null && idx.session == |idx.world.s.sessions| - 1
    requires Kept(idx.world.mode, idx.world.s) && !ctx.done
    modifies idx`hasError, idx`numRequests, idx`numResponses, idx`consumed, idx.world, ctx
    ensures idx.Valid() && |idx.world.s.sessions| == |old(idx.world.s.sessions)|
    ensures Kept(idx.world.mode, idx.world.s)
    ensures NoCommit(old(idx.world.s), idx.world.s, idx.session) && Calm(idx.world.mode, old(idx.world.s), idx.world.s)
    ensures idx.IsOK() ==> StaysOpen(idx.world.mode, old(idx.world.s), idx.world.s, idx.session)
    ensures fetched.Some? ==>
              && idx.IsOK() && Heard(old(idx.Session()), idx.Session(), fetched.value.0)
              && Told(idx.world.mode, idx.world.s, idx.session, fetched.value.0)
              && NextRows(idx.world.s.table, fetched.value.0, fetched.value.1) && |fetched.value.1| <= UPDATE_BATCH_SIZE
              && (idx.world.mode.quiet ==> fetched.value.0 == Max(old(idx.world.s.committed)))
    ensures fetched.Some? && fetched.value.1 == [] && complete ==> forall id :: id in idx.world.s.table ==> id in idx.world.s.committed
    ensures old(idx.Helped(ctx)) && SmallIds(old(idx.world.s.table)) ==>
              && fetched.Some? && fetched.value.0 == Max(old(idx.world.s.committed)) && idx.Helped(ctx)
              && Unmoved(old(idx.world.s), idx.world.s, idx.session)
              && (|fetched.value.1| == 10000 ||
                  forall id :: id in idx.world.s.table ==> id <= fetched.value.0 || id in fetched.value.1)
  {
    hide Kept, Sound, Later, Told, Calm, NoCommit, Grown, NextRows, Ascending, Max, Heard, Unmoved, Settled, SmallIds;
    ghost var s0, mode, k, helped := idx.world.s, idx.world.mode, idx.session, idx.Helped(ctx) && SmallIds(idx.world.s.table);
    SoundAt(s0, k);
    if helped {
      SmallMax(mode, s0);
    }
    var lastID := GetLastFingerprintID(ctx, idx);
    ghost var told := idx.world.s;
    complete := false;
    if lastID.Failure? {
      return None, complete;
    }
    var last := lastID.value;
    var fingerprints;
    fingerprints, complete := GetNextFingerprints(idx.world, last, UPDATE_BATCH_SIZE);
    ghost var s := idx.world.s;
    ToldLater(mode, told, s, k, last);
    ToldIdle(mode, told, k, last);
    if helped {
      NothingWaits(told, k);
      UnmovedIs(s0, told, k);
    }
    LaterWatched(mode, told, s, k);
    SameSent(told, s, k);
    NoCommitThen(s0, told, s, k);
    CalmOn(mode, s0, told, s);
    if fingerprints.None? {
      return None, complete;
    }
    ToldMax(mode, s, k, last);
    IdleNotCommitting(s0);
    CalmMeans(mode, s0, s);
    AllCommitted(mode, s, k, last);
    fetched := Some((last, fingerprints.value));
  }

  /** One pass of the loop over a connection that is OK: fetches the rows after the largest id and inserts them.
      If nothing is left to insert, the index holds the whole table. In a helpful world the next rows are inserted, as many
      as fit one pass, unless a transaction was open. If the connection has a transaction open and the server keeps it, the
      pass inserts nothing, sends no commit, and leaves it open for the next pass. */
  method Update(idx: IndexClient) returns (inserted: Option<nat>, ghost complete: bool, ghost last: nat, ghost rows: seq<nat>)
    requires idx.Valid() && idx.IsOK() && idx.tx == null && idx.session == |idx.world.s.sessions| - 1
    requires Kept(idx.world.mode, idx.world.s)
    modifies idx, idx.world
    ensures idx.Valid() && idx.tx == null && !idx.closed && |idx.world.s.sessions| == |old(idx.world.s.sessions)|
    ensures Kept(idx.world.mode, idx.world.s)
    ensures inserted.Some? ==> idx.IsOK() && inserted.value <= UPDATE_BATCH_SIZE
    ensures inserted.Some? ==> inserted.value == |rows| && Progress(idx.world.s, last, rows)
    ensures inserted.Some? && idx.world.mode.quiet ==> last == Max(old(idx.world.s.committed))
    ensures inserted.Some? ==> Passed(old(idx.Session()), idx.Session(), last, rows)
    ensures idx.world.mode.helpful && SmallIds(old(idx.world.s.table)) && old(idx.Session().open.None?) ==>
              inserted.Some? && NextInserted(old(idx.world.s), idx.world.s, rows) && idx.Session().open.None?
    ensures inserted == Some(0) && complete ==> forall id :: id in idx.world.s.table ==> id in idx.world.s.committed
    ensures idx.world.mode.keeping && old(idx.Session().open.Some?) ==>
              && (inserted.None? || inserted == Some(0))
              && NoCommit(old(idx.world.s), idx.world.s, idx.session) && Calm(idx.world.mode, old(idx.world.s), idx.world.s)
              && (idx.IsOK() ==> idx.Session().open.Some?)
  {
    hide Kept, Sound, Later, ReadyForRows, Told, LeftOpen, Calm, NoCommit, AtMost, Grown, Progress, NextRows, Ascending;
    hide Max, Heard, Unmoved, Settled, Extended, NextInserted, Passed, SmallIds, Fulfilled, WritesOf;
    last, rows := 0, [];
    ghost var s0, mode, k := idx.world.s, idx.world.mode, idx.session;
    var ctx := new Context(idx.world.mode.helpful);
    SoundAt(s0, k);
    ghost var helped := idx.Helped(ctx) && SmallIds(s0.table) && s0.sessions[k].open.None?;
    var fetched;
    fetched, complete := Fetch(ctx, idx);
    if fetched.None? {
      return None, complete, last, rows;
    }
    ghost var s := idx.world.s;
    last, rows := fetched.value.0, fetched.value.1;
    ToldMax(mode, s, k, last);
    FetchedReady(mode, s, k, last, rows);
    if helped {
      UnmovedIs(s0, s, k);
    }
    var r := idx.Insert(ctx, fetched.value.1);
    if s.sessions[k].open.Some? && rows != [] {
      BeginOnly(s, idx.world.s, k);
      NoCommitThen(s0, s, idx.world.s, k);
      CalmOn(mode, s0, s, idx.world.s);
      if idx.IsOK() {
        LeftOpenStays(mode, s, idx.world.s, k);
      }
    }
    if r.Failure? {
      return None, complete, last, rows;
    }
    if helped {
      ExtendedSince(s0, s, idx.world.s, k, rows);
      RestInserted(mode, s0, idx.world.s, k, rows);
    }
    PassedIs(s0.sessions[k], s.sessions[k], idx.Session(), last, rows);
    GrownSame(s);
    InsertedRows(s, idx.world.s, last, rows);
    inserted := Some(|fetched.value.1|);
  }

  lemma UnmovedIs(s: State, t: State, k: nat)
    requires Unmoved(s, t, k)
    ensures t.table == s.table && t.committed == s.committed && k == |t.sessions| - 1 == |s.sessions| - 1
    ensures t.sessions[k].open == s.sessions[k].open
  {
  }

  lemma ExtendedSince(s: State, t: State, u: State, k: nat, rows: seq<nat>)
    requires Unmoved(s, t, k) && Extended(t, u, k, rows)
    ensures Extended(s, u, k, rows) && k < |u.sessions| && u.sessions[k].open.None?
  {
  }

  lemma GrownSame(s: State)
    ensures Grown(s, s)
  {
  }

  lemma ToldIdle(mode: Mode, s: State, k: nat, last: nat)
    requires Told(mode, s, k, last)
    ensures k < |s.sessions| && |s.sessions[k].answers| == |s.sessions[k].sent|
  {
  }

  /** If no row is above what the server reported, every row is in the index. */
  lemma AllCommitted(mode: Mode, s: State, k: nat, last: nat)
    requires Kept(mode, s) && Told(mode, s, k, last)
    ensures Ascending(s.table)
    ensures (forall id :: id in s.table ==> id <= last) ==> forall id :: id in s.table ==> id in s.committed
  {
    hide Reachable, NoDuplicates, Undisturbed, CommitsPrepared;
    ReachableInv(s);
    assert SessionInv(s, s.sessions[k]);
    IndexIsPrefix(s);
  }

  /** A connection that the loop may go on with. */
  ghost predicate Usable(idx: IndexClient, world: World)
    reads idx, world
  {
    idx.world == world && idx.Valid() && idx.tx == null && !idx.closed && idx.session == |world.s.sessions| - 1
  }

  /** The connection is OK and has a transaction open, on a server that keeps it. */
  ghost predicate Stuck(idx: IndexClient?, world: World)
    reads world, idx
  {
    idx != null && Usable(idx, world) && idx.IsOK() && idx.Session().open.Some? && world.mode.keeping
  }

  /** What the loop may have done with a connection that was stuck: nothing was committed through it, and it is stuck
      still unless it broke. */
  ghost predicate StuckOn(idx: IndexClient, world: World, s0: State)
    reads world, idx
  {
    && Usable(idx, world) && NoCommit(s0, world.s, idx.session) && Calm(world.mode, s0, world.s)
    && (idx.IsOK() ==> Stuck(idx, world))
  }

  /** What a round of the loop came to: the process ended, a connection that was not OK was given up, the pass failed, or it
      inserted rows after the largest id, perhaps none; `complete` if the rows that were fetched are all that there were. */
  datatype Turn = Stopped | GivenUp | Failed | Inserted(last: nat, rows: seq<nat>, complete: bool)

  /** In a helpful world a pass over this connection does not fail; no connection is as good as a fresh one. */
  ghost predicate Ready(idx: IndexClient?, world: World)
    reads world, idx
  {
    idx != null ==> Usable(idx, world) && idx.IsOK() && idx.Session().open.None?
  }

  /** All that was covered still is, and `more` rows more. */
  ghost predicate Gains(s: State, t: State, more: int) {
    t.table == s.table && forall n: nat :: Covered(s, n) ==> Covered(t, n + more)
  }

  /** The delay in nanoseconds after a round that slept for `waited`. */
  ghost predicate DelayAfter(turn: Turn, waited: int, delay: int) {
    match turn
    case Stopped => true
    case GivenUp => delay == 60_000_000_000
    case Failed => delay == 60_000_000_000
    case Inserted(_, rows, _) =>
      if rows != [] then delay == 0 else if waited > 0 then delay == waited + waited * 10 / 100 else delay == 10_000_000
  }

  /** A pass and the delay that it chooses, after a round that slept for `waited`. */
  method PassOver(idx: IndexClient, waited: int) returns (delay: int, ghost turn: Turn)
    requires idx.Valid() && idx.IsOK() && idx.tx == null && idx.session == |idx.world.s.sessions| - 1
    requires Kept(idx.world.mode, idx.world.s) && 0 <= waited <= MAX_DELAY
    modifies idx, idx.world
    ensures idx.Valid() && idx.tx == null && !idx.closed && |idx.world.s.sessions| == |old(idx.world.s.sessions)|
    ensures Kept(idx.world.mode, idx.world.s)
    ensures (turn.Failed? || turn.Inserted?) && DelayAfter(turn, waited, delay) && 0 <= delay <= MAX_DELAY + MAX_DELAY / 10
    ensures turn.Inserted? ==>
              && idx.IsOK() && Progress(idx.world.s, turn.last, turn.rows) && |turn.rows| <= 10000
              && Passed(old(idx.Session()), idx.Session(), turn.last, turn.rows)
              && (turn.rows == [] && turn.complete ==> forall id :: id in idx.world.s.table ==> id in idx.world.s.committed)
    ensures idx.world.mode.helpful && SmallIds(old(idx.world.s.table)) && old(idx.Session().open.None?) ==>
              turn.Inserted? && NextInserted(old(idx.world.s), idx.world.s, turn.rows) && idx.Session().open.None?
    ensures idx.world.mode.keeping && old(idx.Session().open.Some?) ==>
              && NoCommit(old(idx.world.s), idx.world.s, idx.session) && Calm(idx.world.mode, old(idx.world.s), idx.world.s)
              && (idx.IsOK() ==> idx.Session().open.Some?)
  {
    hide Kept, NoCommit, Calm, SmallIds, NextInserted, Progress, Passed;
    var inserted;
    ghost var complete, last, rows;
    inserted, complete, last, rows := Update(idx);
    if inserted.None? {
      return MAX_DELAY, Failed;
    }
    turn := Inserted(last, rows, complete);
    if inserted.value == 0 {
      if waited > NO_DELAY {
        delay := waited + waited * 10 / 100;
      } else {
        delay := MIN_DELAY;
      }
    } else {
      delay := NO_DELAY;
    }
  }

  /** One round of the loop; `stop` is the end of the process. If rows are said to be inserted, the transcript of the
      connection shows that they were, and the delay tells the outcomes apart. In a helpful world the next rows are inserted,
      as many as fit one pass. */
  method Round(world: World, idx0: IndexClient?, delay0: int, ghost s0: State)
    returns (idx: IndexClient?, delay: int, stop: bool, ghost turn: Turn)
    requires Sound(world.s) && Kept(world.mode, world.s) && (idx0 != null ==> Usable(idx0, world))
    requires 0 <= delay0 <= MAX_DELAY + MAX_DELAY / 10
    modifies world, if idx0 != null then {idx0} else {}
    ensures Sound(world.s) && Kept(world.mode, world.s) && 0 <= delay <= MAX_DELAY + MAX_DELAY / 10
    ensures idx != null ==> (idx == idx0 || fresh(idx)) && Usable(idx, world)
    ensures idx0 != null && idx == idx0 && old(StuckOn(idx0, world, s0)) && world.mode.keeping ==> StuckOn(idx0, world, s0)
    ensures stop <==> turn.Stopped?
    ensures DelayAfter(turn, if delay0 > 60_000_000_000 then 60_000_000_000 else delay0, delay)
    ensures turn.GivenUp? <==> idx0 != null && !old(idx0.IsOK())
    ensures turn.GivenUp? ==> idx == null
    ensures turn.Inserted? ==>
              && idx != null && idx.IsOK() && Progress(world.s, turn.last, turn.rows) && |turn.rows| <= 10000
              && Passed(if idx0 == null then Session([], [], None, 0, 0) else old(idx0.Session()), idx.Session(), turn.last, turn.rows)
              && (turn.rows == [] && turn.complete ==> forall id :: id in world.s.table ==> id in world.s.committed)
    ensures world.mode.helpful && SmallIds(old(world.s.table)) && old(Ready(idx0, world)) ==>
              && turn.Inserted? && Ready(idx, world) && Gains(old(world.s), world.s, 10000)
              && (idx0 != null ==> NextInserted(old(world.s), world.s, turn.rows))
    ensures world.mode.helpful && turn.GivenUp? ==> Gains(old(world.s), world.s, 0)
  {
    hide Kept, Sound, Later, NoCommit, Calm, SmallIds, Gains, NextInserted, Progress, Passed, DelayAfter;
    idx, delay, stop := idx0, delay0, false;
    GainsSame(world.s);
    if delay > NO_DELAY {
      if delay > MAX_DELAY {
        delay := MAX_DELAY;
      }
      Sleep(world, idx, s0);
    }
    DelayFixed(delay);
    ghost var slept, helped := world.s, world.mode.helpful && SmallIds(old(world.s.table)) && old(Ready(idx0, world));
    if world.mode.helpful {
      GainsTable(old(world.s), slept, 0);
    }
    if idx == null {
      var failed := *;
      if failed && !world.mode.helpful {
        return idx, delay, true, Stopped;
      }
      idx := new IndexClient(world);
    }
    if !idx.IsOK() {
      var background := new Context(world.mode.helpful);
      var _ := idx.Close(background);
      return null, MAX_DELAY, false, GivenUp;
    }
    ghost var before := world.s;
    delay, turn := PassOver(idx, delay);
    if idx == idx0 && old(StuckOn(idx0, world, s0)) && world.mode.keeping {
      NoCommitThen(s0, before, world.s, idx0.session);
      CalmOn(world.mode, s0, before, world.s);
    }
    if helped {
      GainsRows(world.mode, old(world.s), slept, before, world.s, turn.rows);
    }
  }

  lemma DelayFixed(waited: int)
    ensures DelayAfter(Stopped, waited, waited) && DelayAfter(GivenUp, waited, MAX_DELAY)
  {
  }

  lemma GainsSame(s: State)
    ensures Gains(s, s, 0)
  {
  }

  /** The state `s`, after time has passed, after connecting, and after a pass. */
  lemma GainsRows(mode: Mode, s: State, slept: State, before: State, t: State, rows: seq<nat>)
    requires Gains(s, slept, 0) && (before == slept || before == Connect(slept))
    requires Kept(mode, before) && NextInserted(before, t, rows)
    ensures Gains(s, t, 10000)
  {
    hide Kept, NextInserted, Covered;
    NextInsertedTable(before, t, rows);
    forall n: nat | Covered(s, n)
      ensures Covered(t, n + 10000)
    {
      CoveredSame(slept, before, n + 0);
      CoveredMore(mode, before, t, rows, n);
    }
  }

  lemma NextInsertedTable(s: State, t: State, rows: seq<nat>)
    requires NextInserted(s, t, rows)
    ensures t.table == s.table
  {
  }

  lemma CoveredSame(s: State, t: State, n: int)
    requires Covered(s, n) && t.table == s.table && t.committed == s.committed
    ensures Covered(t, n)
  {
  }

  lemma GainsThen(s: State, t: State, u: State, m: int, n: int)
    requires Gains(s, t, m) && Gains(t, u, n) && m >= 0
    ensures Gains(s, u, m + n)
  {
    hide Covered;
    forall i: nat | Covered(s, i)
      ensures Covered(u, i + (m + n))
    {
      assert Covered(u, i + m + n);
    }
  }

  lemma CoveredNone(s: State)
    ensures Covered(s, 0)
  {
  }

  lemma CoveredLess(s: State, m: int, n: int)
    requires Covered(s, m) && n <= m
    ensures Covered(s, n)
  {
  }

  /** Any number of rounds, from any point of the loop. In a helpful world each round covers as many further rows as fit one
      pass, except a first one that gives up a connection, and except with a transaction open. A transaction that was left
      open on a connection that is OK stops the updater if the server keeps it: as long as the loop goes on with that
      connection, no commit is sent, and in a quiet world nothing more gets into the index. */
  method Rounds(world: World, idx0: IndexClient?, delay0: int, rounds: nat) returns (idx: IndexClient?, delay: int)
    requires Kept(world.mode, world.s) && (idx0 != null ==> Usable(idx0, world))
    requires 0 <= delay0 <= MAX_DELAY + MAX_DELAY / 10
    modifies world, if idx0 != null then {idx0} else {}
    ensures Kept(world.mode, world.s) && 0 <= delay <= MAX_DELAY + MAX_DELAY / 10
    ensures idx != null ==> (idx == idx0 || fresh(idx)) && Usable(idx, world)
    ensures world.mode.helpful && SmallIds(old(world.s.table)) && (idx0 == null || !old(idx0.IsOK()) || old(idx0.Session().open.None?)) ==>
              Gains(old(world.s), world.s, 10000 * if idx0 == null || old(idx0.IsOK()) then rounds else rounds - 1)
    ensures idx0 != null && idx == idx0 && old(Stuck(idx0, world)) ==>
              && StuckOn(idx0, world, old(world.s))
              && (world.mode.quiet ==> world.s.committed == old(world.s.committed))
  {
    ghost var s0, lost := world.s, if idx0 == null || idx0.IsOK() then 0 else 1;
    ghost var helped := world.mode.helpful && SmallIds(s0.table) && (idx0 == null || !idx0.IsOK() || idx0.Session().open.None?);
    assert helped && lost == 0 ==> Ready(idx0, world);
    hide Kept, Sound, NoCommit, Calm, Stuck, SmallIds, Gains, Passed, Progress, NextInserted, DelayAfter, Usable, Ready;
    KeptSound(world.mode, world.s);
    idx, delay := idx0, delay0;
    if idx0 != null && Stuck(idx0, world) {
      StuckStarts(idx0, world);
    }
    GainsSame(s0);
    ghost var gained := 0;
    for round := 0 to rounds
      invariant Sound(world.s) && Kept(world.mode, world.s)
      invariant idx != null ==> (idx == idx0 || fresh(idx)) && Usable(idx, world)
      invariant 0 <= delay <= MAX_DELAY + MAX_DELAY / 10
      invariant helped ==> Gains(s0, world.s, gained) && gained == if round < lost then 0 else 10000 * (round - lost)
      invariant helped ==> if round < lost then idx != null && !idx.IsOK() else Ready(idx, world)
      invariant idx0 != null && idx == idx0 && old(Stuck(idx0, world)) ==> world.mode.keeping && StuckOn(idx0, world, s0) && !Committing(s0)
    {
      var stop;
      ghost var before, turn := world.s, Stopped;
      if helped {
        GainsTable(s0, before, gained);
      }
      idx, delay, stop, turn := Round(world, idx, delay, s0);
      if helped {
        ghost var more := if round < lost then 0 else 10000;
        GainsThen(s0, before, world.s, gained, more);
        gained := gained + more;
      }
      if stop {
        break;
      }
    }
    if helped && rounds < lost {
      GainsLess(s0, world.s, 0, -10000);
    }
    CalmMeans(world.mode, s0, world.s);
  }

  lemma GainsTable(s: State, t: State, more: int)
    requires Gains(s, t, more)
    ensures t.table == s.table
  {
  }

  lemma GainsLess(s: State, t: State, m: int, n: int)
    requires Gains(s, t, m) && n <= m
    ensures Gains(s, t, n)
  {
    forall i: nat | Covered(s, i)
      ensures Covered(t, i + n)
    {
      CoveredLess(t, i + m, i + n);
    }
  }

  lemma StuckStarts(idx: IndexClient, world: World)
    requires Stuck(idx, world)
    ensures world.mode.keeping && StuckOn(idx, world, world.s) && !Committing(world.s)
  {
    hide Committing;
    SoundAt(world.s, idx.session);
    IdleNotCommitting(world.s);
    SameSent(world.s, world.s, idx.session);
    CalmSame(world.mode, world.s);
  }

  /** Time passes while the loop sleeps. */
  method Sleep(world: World, idx: IndexClient?, ghost s0: State)
    requires Sound(world.s) && (idx != null ==> Usable(idx, world))
    modifies world
    ensures Sound(world.s) && Later(world.mode, old(world.s), world.s) && (idx != null ==> Usable(idx, world))
    ensures Kept(world.mode, old(world.s)) ==> Kept(world.mode, world.s)
    ensures idx != null && idx.session < |old(world.s.sessions)| ==>
              && (NoCommit(s0, old(world.s), idx.session) ==> NoCommit(s0, world.s, idx.session))
              && (idx.IsOK() ==> idx.Session() == old(world.s.sessions[idx.session]))
    ensures Calm(world.mode, s0, old(world.s)) ==> Calm(world.mode, s0, world.s)
    ensures world.mode.helpful ==> Gains(old(world.s), world.s, 0) && world.s == Settled(old(world.s))
  {
    hide Kept, Sound, Later, NoCommit, Calm, Gains, Settled;
    ghost var before := world.s;
    world.Elapse();
    if world.mode.helpful {
      SettledGains(world.mode, before, world.s);
    }
    LaterCalm(world.mode, before, world.s);
    CalmOn(world.mode, s0, before, world.s);
    if idx != null {
      SoundAt(before, idx.session);
      LaterWatched(world.mode, before, world.s, idx.session);
      SameSent(before, world.s, idx.session);
      if NoCommit(s0, before, idx.session) {
        NoCommitThen(s0, before, world.s, idx.session);
      }
    }
  }

  lemma SettledGains(mode: Mode, s: State, t: State)
    requires Later(mode, s, t) && t == Settled(s)
    ensures Gains(s, t, 0)
  {
    hide Settled, Calm, SessionLater;
    SettledIdle(s);
    forall n: nat | Covered(s, n)
      ensures Covered(t, n + 0)
    {
    }
  }

  lemma LaterCalm(mode: Mode, s: State, t: State)
    requires Later(mode, s, t)
    ensures Calm(mode, s, t)
  {
    hide Calm, SessionLater;
  }

  lemma CalmSame(mode: Mode, s: State)
    ensures Calm(mode, s, s)
  {
  }

  lemma CalmMeans(mode: Mode, s: State, t: State)
    ensures Calm(mode, s, t) && mode.quiet && !Committing(s) ==> t.committed == s.committed
  {
  }

  /** Any number of rounds, from any state that earlier runs may have led to: at the end, as in every state that a run
      leads to, the index is exactly the rows up to its largest id; a row is in it twice exactly if some commit was
      overtaken; and that cannot happen if requests of an old connection take no effect once a newer connection exists. In a
      helpful world the index holds 10000 rows for each round, so with enough of them the whole table. */
  method RunUpdater(world: World, rounds: nat)
    requires Kept(world.mode, world.s)
    modifies world
    ensures Kept(world.mode, world.s)
    ensures forall id :: id in world.s.committed <==> id in world.s.table && id <= Max(world.s.committed)
    ensures NoDuplicates(world.s.committed) <==> !world.s.overtaken
    ensures world.mode.quiet ==> NoDuplicates(world.s.committed)
    ensures world.mode.helpful && SmallIds(old(world.s.table)) ==>
              && world.s.table == old(world.s.table)
              && forall i :: 0 <= i < |world.s.table| && i < 10000 * rounds ==> world.s.table[i] in world.s.committed
  {
    hide Kept, NoDuplicates, Gains, SmallIds, Max;
    ghost var s0 := world.s;
    var idx, delay := Rounds(world, null, NO_DELAY, rounds);
    KeptMeans(world.mode, world.s);
    if world.mode.helpful && SmallIds(s0.table) {
      GainsFirst(s0, world.s, 10000 * rounds);
    }
  }

  lemma GainsFirst(s: State, t: State, more: nat)
    requires Gains(s, t, more)
    ensures t.table == s.table && forall i :: 0 <= i < |t.table| && i < more ==> t.table[i] in t.committed
  {
    CoveredNone(s);
    assert Covered(t, 0 + more);
  }

  lemma KeptMeans(mode: Mode, s: State)
    requires Kept(mode, s)
    ensures forall id :: id in s.committed <==> id in s.table && id <= Max(s.committed)
    ensures NoDuplicates(s.committed) <==> !s.overtaken
    ensures mode.quiet ==> NoDuplicates(s.committed)
  {
    hide Reachable, NoDuplicates;
    ReachableIndex(s);
  }
}
