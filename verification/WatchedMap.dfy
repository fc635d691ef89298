/** The watched path of `LocalPoolExecutor.map` (harness/executor.py): one child
    process per item, at most `workers` alive, a kill watchdog in the parent.
    Everything outside the parent (what the children do and when, the clock,
    callbacks that raise) is an arbitrary `World`; every interleaving of child
    steps with the parent's observations is some world. */
module WatchedMap {
  import opened Options

  datatype Message<R> = Answer(value: R) | Failure(error: R)

  /** A child and its pipe: at most one message is ever sent; once the write end
      is closed nothing more is. */
  datatype Child<R> = Child(alive: bool, message: Option<Message<R>>, closed: bool)

  datatype Reason = WorkerDied | WallTimeout

  datatype Row<R> = Result(item: nat, value: R) | Lost(item: nat, reason: Reason)

  datatype Outcome<R> = Returned(rows: seq<Row<R>>) | Raised(error: R) | Interrupted

  /** What a child may do between two observations: send, close, exit. */
  predicate Evolves<R(==)>(c: Child<R>, d: Child<R>) {
    if !c.alive then d == c
    else
      && (c.message.Some? || c.closed ==> d.message == c.message)
      && (c.closed ==> d.closed)
      && (!d.alive ==> d.closed)
  }

  /** The adversary, indexed by observation number. */
  datatype World<!R> = World(child: (nat, nat, Child<R>) -> Child<R>,  // steps of a child before an observation
                             delay: nat -> nat,                        // clock ticks that pass before it
                             eofSeen: nat -> bool,                     // whether poll reports an end of file
                             raises: nat -> bool)                      // whether a callback or a signal raises

  ghost predicate Fair<R(!new)>(w: World<R>) {
    forall t, i, c :: Evolves(c, w.child(t, i, c))
  }

  /** The parent's state: children by item index, their start times, the live
      table in start order, the rows so far, the clock, the observation count and
      the timeout of the call. */
  datatype Pool<R> = Pool(kids: seq<Child<R>>, startedAt: seq<int>, live: seq<nat>, out: seq<Row<R>>,
                          now: int, t: nat, timeout: int)

  // ------------------------------------------------------------- invariants

  predicate Increasing(s: seq<nat>) {
    forall a, b :: 0 <= a < b < |s| ==> s[a] < s[b]
  }

  /** The row tells the truth about the child, now and for ever after. */
  predicate Honest<R(==)>(row: Row<R>, c: Child<R>) {
    match row
    case Result(_, v) => c.message == Some(Answer(v))
    case Lost(_, WorkerDied) => c.message == None && c.closed
    case Lost(_, WallTimeout) => !c.alive
  }

  predicate Settled<R>(rows: seq<Row<R>>, i: nat) {
    exists j :: 0 <= j < |rows| && rows[j].item == i
  }

  predicate OneRowEach<R>(rows: seq<Row<R>>) {
    forall a, b :: 0 <= a < b < |rows| ==> rows[a].item != rows[b].item
  }

  /** More than the timeout has passed since child `i` was started. */
  predicate Overdue<R>(p: Pool<R>, i: nat) {
    i < |p.startedAt| && p.now - p.startedAt[i] > p.timeout
  }

  /** Honest, and timed out only when overdue. */
  predicate HonestIn<R(==)>(p: Pool<R>, row: Row<R>) {
    && row.item < |p.kids| && Honest(row, p.kids[row.item])
    && (row.Lost? && row.reason.WallTimeout? ==> Overdue(p, row.item))
  }

  predicate HonestRows<R(==)>(rows: seq<Row<R>>, p: Pool<R>) {
    forall j :: 0 <= j < |rows| ==> HonestIn(p, rows[j])
  }

  /** Times are recorded in start order. */
  predicate Timed<R>(p: Pool<R>) {
    && |p.startedAt| == |p.kids|
    && (forall a, b :: 0 <= a < b < |p.startedAt| ==> p.startedAt[a] <= p.startedAt[b])
    && (forall a :: 0 <= a < |p.startedAt| ==> p.startedAt[a] <= p.now)
  }

  predicate InTable<R>(p: Pool<R>) {
    Increasing(p.live) && forall a :: 0 <= a < |p.live| ==> p.live[a] < |p.kids|
  }

  predicate LiveOrSettled<R>(p: Pool<R>) {
    forall i :: 0 <= i < |p.kids| ==> (i in p.live <==> !Settled(p.out, i))
  }

  predicate DeadOnceSettled<R>(p: Pool<R>) {
    forall i :: 0 <= i < |p.kids| ==> if p.kids[i].alive then i in p.live else p.kids[i].closed
  }

  /** Every started child is live or has its one honest row and is dead. */
  predicate Accounted<R(==)>(p: Pool<R>) {
    InTable(p) && OneRowEach(p.out) && HonestRows(p.out, p) && LiveOrSettled(p) && DeadOnceSettled(p)
  }

  function Running<R>(p: Pool<R>): (r: set<nat>)
    ensures forall i :: i in r <==> 0 <= i < |p.kids| && p.kids[i].alive
  {
    set i | 0 <= i < |p.kids| && p.kids[i].alive
  }

  lemma {:induction false} DistinctBound(s: set<nat>, live: seq<nat>)
    requires forall i :: i in s ==> i in live
    ensures |s| <= |live|
    decreases |live|
  {
    if live == [] {
      assert s == {};
    } else {
      DistinctBound(s - {live[0]}, live[1..]);
    }
  }

  lemma {:induction false} RunningBound<R>(p: Pool<R>, workers: int)
    requires Accounted(p) && |p.live| <= workers
    ensures |Running(p)| <= workers
  {
    DistinctBound(Running(p), p.live);
  }

  // ------------------------------------------------------------ parent steps

  /** `ctx.Process(...).start()` on the next item. */
  function Start<R>(p: Pool<R>): (r: Pool<R>) {
    p.(kids := p.kids + [Child(true, None, false)], startedAt := p.startedAt + [p.now], live := p.live + [|p.kids|])
  }

  lemma {:induction false} StartKeeps<R>(p: Pool<R>)
    requires Timed(p) && Accounted(p)
    ensures Timed(Start(p)) && Accounted(Start(p))
  {
    var q := Start(p);
    assert !Settled(p.out, |p.kids|);
    forall i | 0 <= i < |q.kids|
      ensures i in q.live <==> i in p.live || i == |p.kids|
    {
    }
  }

  /** One observation of child `i`: time passes and the child takes steps. */
  function Observe<R>(p: Pool<R>, w: World<R>, i: nat): (r: Pool<R>)
    requires i < |p.kids|
  {
    p.(kids := p.kids[i := w.child(p.t, i, p.kids[i])], now := p.now + w.delay(p.t), t := p.t + 1)
  }

  function Kill<R>(p: Pool<R>, i: nat): (r: Pool<R>)
    requires i < |p.kids|
  {
    p.(kids := p.kids[i := p.kids[i].(alive := false, closed := true)])
  }

  /** `live.pop(proc)`, `join`, and the row is appended. */
  function Retire<R>(p: Pool<R>, a: nat, row: Row<R>): (r: Pool<R>)
    requires a < |p.live| && p.live[a] < |p.kids|
  {
    Kill(p, p.live[a]).(live := p.live[..a] + p.live[a + 1..], out := p.out + [row])
  }

  /** The clock advances and an observation is spent on the parent itself. */
  function Tick<R>(p: Pool<R>, w: World<R>, slept: nat): (r: Pool<R>) {
    p.(now := p.now + slept + w.delay(p.t), t := p.t + 1)
  }

  datatype Action<R> =
    | StartNext
    | ObserveChild(child: nat)
    | KillChild(child: nat)
    | RetireChild(at: nat, row: Row<R>)
    | Wait(slept: nat)

  /** The watchdog may kill only what is overdue, and only a live child is retired, with an honest row. */
  predicate Enabled<R(==)>(p: Pool<R>, act: Action<R>) {
    match act
    case ObserveChild(i) => i < |p.kids|
    case KillChild(i) => i < |p.kids| && Overdue(p, i)
    case RetireChild(a, row) => a < |p.live| && p.live[a] == row.item && HonestIn(p, row)
    case _ => true
  }

  function Perform<R>(p: Pool<R>, w: World<R>, act: Action<R>): (r: Pool<R>)
    requires Enabled(p, act)
  {
    match act
    case StartNext => Start(p)
    case ObserveChild(i) => Observe(p, w, i)
    case KillChild(i) => Kill(p, i)
    case RetireChild(a, row) => Retire(p, a, row)
    case Wait(slept) => Tick(p, w, slept)
  }

  /** Settled rows that are still in the live table stay honest too. */
  predicate Pending<R(==)>(p: Pool<R>, settled: seq<Row<R>>) {
    && OneRowEach(settled) && HonestRows(settled, p)
    && forall j :: 0 <= j < |settled| ==> settled[j].item in p.live
  }

  lemma {:induction false} ObserveKeeps<R(!new)>(p: Pool<R>, w: World<R>, i: nat, settled: seq<Row<R>>)
    requires Fair(w) && Timed(p) && Accounted(p) && Pending(p, settled) && i in p.live
    ensures var q := Observe(p, w, i);
            Timed(q) && Accounted(q) && Pending(q, settled) && Evolves(p.kids[i], q.kids[i])
  {
    assert Evolves(p.kids[i], w.child(p.t, i, p.kids[i]));
  }

  lemma {:induction false} KillKeeps<R>(p: Pool<R>, i: nat, settled: seq<Row<R>>)
    requires Timed(p) && Accounted(p) && Pending(p, settled) && i in p.live
    ensures var q := Kill(p, i);
            Timed(q) && Accounted(q) && Pending(q, settled) && !q.kids[i].alive
  {
  }

  datatype Verdict<R> = Unsettled | Settle(row: Row<R>) | Raise(error: R) | Interrupt

  /** Some live child has sent this error. */
  predicate Failing<R(==)>(p: Pool<R>, error: R) {
    exists a :: 0 <= a < |p.live| && p.live[a] < |p.kids| && p.kids[p.live[a]].message == Some(Failure(error))
  }

  function Empty<R>(timeout: int): (r: Pool<R>) {
    Pool([], [], [], [], 0, 0, timeout)
  }

  /** The history of the call so far, state by state: it starts empty, moves by
      single actions, ends in `p`, and never has more than `workers` children running. */
  ghost predicate Trace<R(!new)>(history: seq<Pool<R>>, w: World<R>, workers: int, p: Pool<R>) {
    && history != [] && history[|history| - 1] == p && |Running(p)| <= workers
    && if |history| == 1 then p == Empty(p.timeout)
       else Moves(history[|history| - 2], w, p) && Trace(history[..|history| - 1], w, workers, history[|history| - 2])
  }

  ghost predicate Moves<R(!new)>(p: Pool<R>, w: World<R>, q: Pool<R>) {
    exists act :: Enabled(p, act) && Perform(p, w, act) == q
  }

  lemma {:induction false} Extend<R(!new)>(history: seq<Pool<R>>, w: World<R>, workers: int, p: Pool<R>, act: Action<R>)
    requires Trace(history, w, workers, p) && Enabled(p, act)
    requires Accounted(Perform(p, w, act)) && |Perform(p, w, act).live| <= workers
    ensures Trace(history + [Perform(p, w, act)], w, workers, Perform(p, w, act))
  {
    var q := Perform(p, w, act);
    RunningBound(q, workers);
    assert (history + [q])[..|history|] == history;
    assert Moves(p, w, q);
  }

  /** What a trace says of every state in it. */
  lemma {:induction false} TraceBound<R(!new)>(history: seq<Pool<R>>, w: World<R>, workers: int, p: Pool<R>, k: nat)
    requires Trace(history, w, workers, p) && k < |history|
    ensures history[0] == Empty(p.timeout) && history[k].timeout == p.timeout && |Running(history[k])| <= workers
    ensures k + 1 < |history| ==> Moves(history[k], w, history[k + 1])
  {
    var n := |history| - 1;
    if n > 0 {
      TraceBound(history[..n], w, workers, history[n - 1], if k < n then k else n - 1);
    }
  }

  /** `time.monotonic() - started > timeout`: the watchdog kills the child. */
  method Watchdog<R(!new)>(p: Pool<R>, w: World<R>, workers: int, i: nat,
                           settled: seq<Row<R>>, ghost history0: seq<Pool<R>>)
    returns (q: Pool<R>, v: Verdict<R>, ghost history: seq<Pool<R>>)
    requires Timed(p) && Accounted(p) && Pending(p, settled) && i in p.live && |p.live| <= workers
    requires Trace(history0, w, workers, p)
    ensures Timed(q) && Accounted(q) && Pending(q, settled) && Trace(history, w, workers, q)
    ensures q.live == p.live && q.out == p.out && q.startedAt == p.startedAt && q.timeout == p.timeout && p.now <= q.now
    ensures if v.Settle? then v.row == Lost(i, WallTimeout) && !q.kids[i].alive && Overdue(q, i)
            else v.Unsettled? && q.kids == p.kids && !Overdue(q, i)
  {
    q, v := Tick(p, w, 0), Unsettled;
    Extend(history0, w, workers, p, Wait(0));
    history := history0 + [q];
    if q.now - q.startedAt[i] > q.timeout {
      KillKeeps(q, i, settled);
      Extend(history, w, workers, q, KillChild(i));
      q := Kill(q, i);
      history := history + [q];
      v := Settle(Lost(i, WallTimeout));
    }
  }

  /** The body of the scan for one live child: sample liveness, then drain the
      pipe, then look at the clock. */
  method CheckChild<R(!new)>(p: Pool<R>, w: World<R>, workers: int, i: nat,
                             settled: seq<Row<R>>, ghost history0: seq<Pool<R>>)
    returns (q: Pool<R>, v: Verdict<R>, ghost history: seq<Pool<R>>)
    requires Fair(w) && Timed(p) && Accounted(p) && Pending(p, settled) && i in p.live && |p.live| <= workers
    requires !Settled(settled, i) && Trace(history0, w, workers, p)
    ensures Timed(q) && Accounted(q) && Pending(q, settled) && Trace(history, w, workers, q)
    ensures q.live == p.live && q.out == p.out && q.startedAt == p.startedAt && q.timeout == p.timeout && p.now <= q.now
    ensures v.Settle? ==> v.row.item == i && HonestIn(q, v.row)
    ensures v.Raise? ==> Failing(q, v.error)
    ensures v.Interrupt? ==> w.raises(q.t)
    ensures v.Unsettled? ==> !Overdue(q, i)
  {
    q, history := p, history0;
    if w.raises(q.t) {
      return q, Interrupt, history;
    }
    ObserveKeeps(q, w, i, settled);
    Extend(history, w, workers, q, ObserveChild(i));
    q := Observe(q, w, i);
    history := history + [q];
    var dead := !q.kids[i].alive;
    ghost var sampled := q.kids[i];
    ObserveKeeps(q, w, i, settled);
    Extend(history, w, workers, q, ObserveChild(i));
    q := Observe(q, w, i);
    history := history + [q];
    var c := q.kids[i];
    if c.message.Some? || (c.closed && w.eofSeen(q.t)) {
      if c.message.None? {
        v := Settle(Lost(i, WorkerDied));
      } else if c.message.value.Failure? {
        v := Raise(c.message.value.error);
      } else {
        v := Settle(Result(i, c.message.value.value));
      }
    } else if dead {
      assert c == sampled;
      v := Settle(Lost(i, WorkerDied));
    } else {
      q, v, history := Watchdog(q, w, workers, i, settled, history);
    }
  }

  lemma {:induction false} RetireTable<R>(p: Pool<R>, a: nat, row: Row<R>)
    requires InTable(p) && a < |p.live|
    ensures InTable(Retire(p, a, row))
    ensures forall i :: i in Retire(p, a, row).live <==> i in p.live && i != p.live[a]
  {
    var q := Retire(p, a, row);
    assert forall b :: 0 <= b < |q.live| ==> q.live[b] == if b < a then p.live[b] else p.live[b + 1];
    assert forall b :: 0 <= b < |p.live| && b != a ==> p.live[b] == if b < a then q.live[b] else q.live[b - 1];
  }

  lemma {:induction false} SettledSnoc<R>(rows: seq<Row<R>>, row: Row<R>)
    ensures forall i :: Settled(rows + [row], i) <==> Settled(rows, i) || i == row.item
  {
    forall i
      ensures Settled(rows + [row], i) <==> Settled(rows, i) || i == row.item
    {
      assert (rows + [row])[|rows|].item == row.item;
      if Settled(rows, i) {
        var j :| 0 <= j < |rows| && rows[j].item == i;
        assert (rows + [row])[j].item == i;
      }
    }
  }

  lemma {:induction false} RetireRows<R>(p: Pool<R>, a: nat, row: Row<R>)
    requires Accounted(p) && a < |p.live| && row.item == p.live[a] && HonestIn(p, row)
    ensures OneRowEach(Retire(p, a, row).out) && HonestRows(Retire(p, a, row).out, Retire(p, a, row))
  {
    assert !Settled(p.out, row.item);
  }

  lemma {:induction false} RetirePending<R>(p: Pool<R>, a: nat, row: Row<R>, settled: seq<Row<R>>)
    requires InTable(p) && a < |p.live| && row.item == p.live[a] && Pending(p, [row] + settled)
    ensures Pending(Retire(p, a, row), settled) && HonestIn(p, row)
  {
    var all := [row] + settled;
    assert all[0] == row && forall j :: 0 <= j < |settled| ==> all[j + 1] == settled[j];
    RetireTable(p, a, row);
  }

  lemma {:induction false} RetireKeeps<R>(p: Pool<R>, a: nat, row: Row<R>, settled: seq<Row<R>>)
    requires Timed(p) && Accounted(p) && a < |p.live| && row.item == p.live[a]
    requires Pending(p, [row] + settled)
    ensures Timed(Retire(p, a, row)) && Accounted(Retire(p, a, row)) && Pending(Retire(p, a, row), settled)
  {
    RetirePending(p, a, row, settled);
    RetireRows(p, a, row);
    RetireTable(p, a, row);
    SettledSnoc(p.out, row);
  }

  lemma {:induction false} SettleOne<R>(p: Pool<R>, settled: seq<Row<R>>, row: Row<R>)
    requires Pending(p, settled) && !Settled(settled, row.item) && row.item in p.live
    requires HonestIn(p, row)
    ensures Pending(p, settled + [row])
  {
  }

  /** Rows of children already scanned are not rows of the next one. */
  lemma {:induction false} NotYetSettled<R>(live: seq<nat>, settled: seq<Row<R>>, a: nat)
    requires Increasing(live) && a < |live|
    requires forall j :: 0 <= j < |settled| ==> settled[j].item in live[..a]
    ensures !Settled(settled, live[a])
  {
    assert forall b :: 0 <= b < a ==> live[..a][b] < live[a];
  }

  /** The scan has reached position `a` of the live table. */
  predicate Scanned<R(==)>(p: Pool<R>, q: Pool<R>, a: nat, settled: seq<Row<R>>)
    requires a <= |p.live| && Timed(p) && Accounted(p)
  {
    && q.live == p.live && q.out == p.out && q.startedAt == p.startedAt && q.timeout == p.timeout
    && |q.kids| == |p.kids| && p.now <= q.now
    && |settled| <= a
    && (forall j :: 0 <= j < |settled| ==> settled[j].item in p.live[..a])
    && (settled == [] && a > 0 ==> !Overdue(p, p.live[0]))
  }

  /** One turn of the scan. */
  method ScanOne<R(!new)>(ghost p: Pool<R>, q0: Pool<R>, a: nat, settled0: seq<Row<R>>, w: World<R>,
                          workers: int, ghost history0: seq<Pool<R>>)
    returns (q: Pool<R>, settled: seq<Row<R>>, v: Verdict<R>, ghost history: seq<Pool<R>>)
    requires Fair(w) && Timed(p) && Accounted(p) && a < |p.live| <= workers && Scanned(p, q0, a, settled0)
    requires Timed(q0) && Accounted(q0) && Pending(q0, settled0) && Trace(history0, w, workers, q0)
    ensures Timed(q) && Accounted(q) && Pending(q, settled) && Trace(history, w, workers, q)
    ensures |q.kids| == |p.kids| && q.live == p.live && q.timeout == p.timeout && !v.Settle?
    ensures v.Unsettled? ==> Scanned(p, q, a + 1, settled)
    ensures (v.Raise? ==> Failing(q, v.error)) && (v.Interrupt? ==> w.raises(q.t))
  {
    var i := q0.live[a];
    NotYetSettled(p.live, settled0, a);
    q, v, history := CheckChild(q0, w, workers, i, settled0, history0);
    settled := settled0;
    if v.Settle? {
      SettleOne(q, settled0, v.row);
      settled := settled0 + [v.row];
      v := Unsettled;
    }
    if v.Unsettled? {
      ScannedNext(p, q0, q, a, settled0, settled);
    }
  }

  lemma {:induction false} ScannedNext<R>(p: Pool<R>, q0: Pool<R>, q: Pool<R>, a: nat, settled0: seq<Row<R>>,
                                          settled: seq<Row<R>>)
    requires Timed(p) && Accounted(p) && a < |p.live| && Scanned(p, q0, a, settled0)
    requires q.live == q0.live && q.out == q0.out && q.startedAt == q0.startedAt && q.timeout == q0.timeout
    requires |q.kids| == |q0.kids|
    requires q0.now <= q.now
    requires (settled == settled0 && !Overdue(q, p.live[a]))
          || (|settled| == |settled0| + 1 && settled[..|settled0|] == settled0 && settled[|settled0|].item == p.live[a])
    ensures Scanned(p, q, a + 1, settled)
  {
    assert p.live[..a + 1] == p.live[..a] + [p.live[a]];
    forall j | 0 <= j < |settled|
      ensures settled[j].item in p.live[..a + 1]
    {
      if j < |settled0| {
        assert settled[j] == settled[..|settled0|][j];
        assert settled0[j].item in p.live[..a];
      }
    }
  }

  /** The scan over the live table. */
  method Scan<R(!new)>(p: Pool<R>, w: World<R>, workers: int, ghost history0: seq<Pool<R>>)
    returns (q: Pool<R>, settled: seq<Row<R>>, v: Verdict<R>, ghost history: seq<Pool<R>>)
    requires Fair(w) && Timed(p) && Accounted(p) && |p.live| <= workers && Trace(history0, w, workers, p)
    ensures Timed(q) && Accounted(q) && Pending(q, settled) && Trace(history, w, workers, q)
    ensures |q.kids| == |p.kids| && q.live == p.live && q.timeout == p.timeout && !v.Settle?
    ensures (v.Raise? ==> Failing(q, v.error)) && (v.Interrupt? ==> w.raises(q.t))
    ensures v.Unsettled? ==> Scanned(p, q, |p.live|, settled)
  {
    q, settled, v, history := p, [], Unsettled, history0;
    var a := 0;
    while a < |p.live|
      invariant 0 <= a <= |p.live| && Scanned(p, q, a, settled)
      invariant Timed(q) && Accounted(q) && Pending(q, settled) && Trace(history, w, workers, q)
      invariant v.Unsettled?
    {
      q, settled, v, history := ScanOne(p, q, a, settled, w, workers, history);
      if !v.Unsettled? {
        return;
      }
      a := a + 1;
    }
  }

  /** Top up the live table from the input. */
  method Fill<R(!new)>(p: Pool<R>, n: nat, workers: int, exhausted0: bool, ghost w: World<R>,
                       ghost history0: seq<Pool<R>>)
    returns (q: Pool<R>, exhausted: bool, ghost history: seq<Pool<R>>)
    requires Timed(p) && Accounted(p) && |p.live| <= workers && |p.kids| <= n && Trace(history0, w, workers, p)
    requires exhausted0 ==> |p.kids| == n
    ensures Timed(q) && Accounted(q) && |q.live| <= workers && |q.kids| <= n && Trace(history, w, workers, q)
    ensures exhausted ==> |q.kids| == n
    ensures |p.kids| <= |q.kids| && q.timeout == p.timeout && (exhausted0 ==> exhausted)
    ensures |p.kids| == |q.kids| ==> q == p
    ensures !exhausted0 && |p.live| < workers ==> |p.kids| < |q.kids| || exhausted
  {
    q, exhausted, history := p, exhausted0, history0;
    while !exhausted && |q.live| < workers
      invariant Timed(q) && Accounted(q) && |q.live| <= workers && |q.kids| <= n && Trace(history, w, workers, q)
      invariant exhausted ==> |q.kids| == n
      invariant |p.kids| <= |q.kids| && q.timeout == p.timeout && (exhausted0 ==> exhausted)
      invariant |p.kids| == |q.kids| ==> q == p
      decreases n - |q.kids|, !exhausted
    {
      if |q.kids| == n {
        exhausted := true;
      } else {
        StartKeeps(q);
        Extend(history, w, workers, q, StartNext);
        q := Start(q);
        history := history + [q];
      }
    }
  }

  lemma {:induction false} TickKeeps<R>(p: Pool<R>, w: World<R>, slept: nat, settled: seq<Row<R>>)
    requires Timed(p) && Accounted(p) && Pending(p, settled)
    ensures var q := Tick(p, w, slept); Timed(q) && Accounted(q) && Pending(q, settled)
  {
  }

  /** Pop one settled child from the live table, join it and append its row. */
  method RetireOne<R(!new)>(p: Pool<R>, w: World<R>, row: Row<R>, ghost settled: seq<Row<R>>, workers: int,
                            ghost history0: seq<Pool<R>>)
    returns (q: Pool<R>, ghost history: seq<Pool<R>>)
    requires Timed(p) && Accounted(p) && Pending(p, [row] + settled) && |p.live| <= workers
    requires Trace(history0, w, workers, p)
    ensures Timed(q) && Accounted(q) && Pending(q, settled) && Trace(history, w, workers, q)
    ensures |q.kids| == |p.kids| && q.timeout == p.timeout && p.now <= q.now
    ensures |q.live| == |p.live| - 1 && q.out == p.out + [row]
  {
    assert ([row] + settled)[0] == row;
    var a :| 0 <= a < |p.live| && p.live[a] == row.item;
    RetireKeeps(p, a, row, settled);
    Extend(history0, w, workers, p, RetireChild(a, row));
    q := Retire(p, a, row);
    history := history0 + [q];
    TickKeeps(q, w, 0, settled);
    Extend(history, w, workers, q, Wait(0));
    q := Tick(q, w, 0);
    history := history + [q];
  }

  /** Retire the settled children, in scan order; `on_result` may raise after each. */
  method RetireAll<R(!new)>(p: Pool<R>, w: World<R>, settled: seq<Row<R>>, workers: int, ghost history0: seq<Pool<R>>)
    returns (q: Pool<R>, interrupted: bool, ghost history: seq<Pool<R>>)
    requires Timed(p) && Accounted(p) && Pending(p, settled) && |p.live| <= workers
    requires Trace(history0, w, workers, p)
    ensures Timed(q) && Accounted(q) && |q.live| <= |p.live| && Trace(history, w, workers, q)
    ensures |q.kids| == |p.kids| && q.timeout == p.timeout && p.now <= q.now && (interrupted ==> w.raises(q.t))
    ensures !interrupted ==> |q.live| == |p.live| - |settled|
    ensures settled == [] ==> q == p && !interrupted
  {
    q, interrupted, history := p, false, history0;
    var rest := settled;
    while rest != []
      invariant Timed(q) && Accounted(q) && Pending(q, rest) && Trace(history, w, workers, q)
      invariant |q.live| == |p.live| - (|settled| - |rest|) && |q.kids| == |p.kids| && p.now <= q.now
      invariant q.timeout == p.timeout && |rest| <= |settled|
      invariant rest == settled ==> q == p
      decreases |rest|
    {
      assert rest == [rest[0]] + rest[1..];
      q, history := RetireOne(q, w, rest[0], rest[1..], workers, history);
      rest := rest[1..];
      if w.raises(q.t) {
        return q, true, history;
      }
    }
  }

  /** The `finally` block: no child outlives the call. */
  method KillAll<R>(p: Pool<R>) returns (kids: seq<Child<R>>)
    requires Accounted(p)
    ensures |kids| == |p.kids| && forall i :: 0 <= i < |kids| ==> !kids[i].alive && kids[i].message == p.kids[i].message
  {
    kids := p.kids;
    for a := 0 to |p.live|
      invariant |kids| == |p.kids|
      invariant forall i :: 0 <= i < |kids| ==> kids[i].message == p.kids[i].message
      invariant forall i :: 0 <= i < |kids| && kids[i].alive ==> i in p.live[a..]
    {
      kids := kids[p.live[a] := kids[p.live[a]].(alive := false, closed := true)];
      assert p.live[a..] == [p.live[a]] + p.live[a + 1..];
    }
  }

  /** What is left of the oldest live child's time, past which a scan settles it. */
  function Remaining<R>(p: Pool<R>): (r: nat)
    requires Timed(p) && Accounted(p)
  {
    if p.live == [] then 0
    else
      var left := p.timeout + 1 - (p.now - p.startedAt[p.live[0]]);
      if left < 0 then 0 else left
  }

  /** Items not yet taken from the iterator, and the end of input not yet seen. */
  function ToStart<R>(p: Pool<R>, n: nat, exhausted: bool): (r: nat)
    requires |p.kids| <= n
  {
    n - |p.kids| + if exhausted then 0 else 1
  }

  ghost predicate PassInvariant<R(!new)>(p: Pool<R>, n: nat, workers: int, exhausted: bool, w: World<R>,
                                              history: seq<Pool<R>>) {
    && Timed(p) && Accounted(p) && |p.live| <= workers && |p.kids| <= n && Trace(history, w, workers, p)
    && (exhausted ==> |p.kids| == n)
  }

  /** Scan, retire, and sleep if nothing settled: a child settles or time runs out. */
  method Settling<R(!new)>(p: Pool<R>, workers: int, w: World<R>, ghost history0: seq<Pool<R>>)
    returns (q: Pool<R>, v: Verdict<R>, ghost history: seq<Pool<R>>)
    requires Fair(w) && Timed(p) && Accounted(p) && |p.live| <= workers && Trace(history0, w, workers, p)
    ensures Timed(q) && Accounted(q) && |q.live| <= workers && Trace(history, w, workers, q)
    ensures |q.kids| == |p.kids| && q.timeout == p.timeout && !v.Settle?
    ensures (v.Raise? ==> Failing(q, v.error)) && (v.Interrupt? ==> w.raises(q.t))
    ensures v.Unsettled? && p.live != [] ==>
      |q.live| < |p.live| || (|q.live| == |p.live| && Remaining(q) < Remaining(p))
  {
    var settled;
    q, settled, v, history := Scan(p, w, workers, history0);
    if v.Unsettled? {
      if settled == [] {
        TickKeeps(q, w, 1, []);
        Extend(history, w, workers, q, Wait(1));
        q := Tick(q, w, 1);
        history := history + [q];
      } else {
        var interrupted;
        q, interrupted, history := RetireAll(q, w, settled, workers, history);
        v := if interrupted then Interrupt else Unsettled;
      }
    }
  }

  /** One turn of the outer loop. The ranking (items to start, live children,
      time left to the oldest) falls lexicographically. */
  method Pass<R(!new)>(p: Pool<R>, n: nat, workers: int, w: World<R>, exhausted0: bool,
                       ghost history0: seq<Pool<R>>)
    returns (q: Pool<R>, exhausted: bool, v: Verdict<R>, ghost history: seq<Pool<R>>)
    requires workers >= 1 && Fair(w) && PassInvariant(p, n, workers, exhausted0, w, history0)
    requires !exhausted0 || p.live != []
    ensures PassInvariant(q, n, workers, exhausted, w, history) && q.timeout == p.timeout
    ensures !v.Settle? && (v.Raise? ==> Failing(q, v.error)) && (v.Interrupt? ==> w.raises(q.t))
    ensures v.Unsettled? ==>
      || ToStart(q, n, exhausted) < ToStart(p, n, exhausted0)
      || (ToStart(q, n, exhausted) == ToStart(p, n, exhausted0)
          && (|q.live| < |p.live| || (|q.live| == |p.live| && Remaining(q) < Remaining(p))))
  {
    q, exhausted, history := Fill(p, n, workers, exhausted0, w, history0);
    q, v, history := Settling(q, workers, w, history);
  }

  /** How a call that has reached the pool `last` may end. */
  ghost predicate Ends<R(!new)>(r: Outcome<R>, last: Pool<R>, w: World<R>, n: nat) {
    match r
    case Returned(rows) => rows == last.out && |last.kids| == n && HonestRows(rows, last)
    case Raised(error) => Failing(last, error)
    case Interrupted => w.raises(last.t)
  }

  /** `LocalPoolExecutor.map` with a timeout. It terminates in every fair world,
      even if no child ever answers. A normal return holds exactly one row per
      item, and every row is true of its child: one reported `worker_died` never
      delivered a message, and one reported `wall_timeout` was overdue. An error
      is one that a child not yet settled has sent. At no time do more than
      `workers` children run, only overdue children are killed by the watchdog,
      and no child outlives the call, however it ends. */
  method Map<R(!new)>(n: nat, workers: int, timeout: int, w: World<R>)
    returns (r: Outcome<R>, ghost kids: seq<Child<R>>, ghost last: Pool<R>, ghost history: seq<Pool<R>>)
    requires workers >= 1 && Fair(w)
    ensures Trace(history, w, workers, last) && last.timeout == timeout && Ends(r, last, w, n)
    ensures |kids| == |last.kids| <= n && forall i :: 0 <= i < |kids| ==> !kids[i].alive
    ensures forall i :: 0 <= i < |kids| ==> kids[i].message == last.kids[i].message
    ensures r.Returned? ==> |r.rows| == n && OneRowEach(r.rows) && forall i :: 0 <= i < n ==> Settled(r.rows, i)
    ensures r.Interrupted? ==> exists t :: w.raises(t)
  {
    var p: Pool<R> := Empty(timeout);
    var exhausted := false;
    history := [p];
    assert Running(p) == {};
    while !exhausted || p.live != []
      invariant PassInvariant(p, n, workers, exhausted, w, history) && p.timeout == timeout
      decreases ToStart(p, n, exhausted), |p.live|, Remaining(p)
    {
      var v;
      p, exhausted, v, history := Pass(p, n, workers, w, exhausted, history);
      if !v.Unsettled? {
        var left := KillAll(p);
        kids, last := left, p;
        r := if v.Raise? then Raised(v.error) else Interrupted;
        return;
      }
    }
    AllSettled(p, n);
    kids, last := p.kids, p;
    r := Returned(p.out);
  }

  lemma {:induction false} AllSettled<R>(p: Pool<R>, n: nat)
    requires Accounted(p) && p.live == [] && |p.kids| == n
    ensures |p.out| == n && OneRowEach(p.out) && HonestRows(p.out, p)
    ensures forall i :: 0 <= i < n ==> Settled(p.out, i) && !p.kids[i].alive
  {
    var items := ItemSet(p.out);
    assert items == Below(n);
  }

  function Below(n: nat): (r: set<nat>)
    ensures |r| == n && forall i: nat :: i in r <==> i < n
  {
    if n == 0 then {} else Below(n - 1) + {n - 1}
  }

  function ItemSet<R>(rows: seq<Row<R>>): (r: set<nat>)
    ensures forall i :: i in r <==> Settled(rows, i)
    ensures OneRowEach(rows) ==> |r| == |rows|
  {
    if rows == [] then {}
    else
      var k := |rows| - 1;
      assert forall i :: Settled(rows, i) <==> Settled(rows[..k], i) || rows[k].item == i;
      assert OneRowEach(rows) ==> OneRowEach(rows[..k]) && !Settled(rows[..k], rows[k].item);
      ItemSet(rows[..k]) + {rows[k].item}
  }
}
