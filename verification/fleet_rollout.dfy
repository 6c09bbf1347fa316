/**
 One fleet rollout: the snapshot of the tenants and the orchestrator that provisions them in order.
 Any statement may fail, with or without its effect, unless the database is reliable; an operator's
 abort may arrive at any await.
 */
module FleetRollout {
  import opened Outcomes

  datatype TenantStatus = Pending | Succeeded | Failed | Skipped

  // A fleet_rollout_tenants row; started and ended say whether the timestamps are set.
  datatype TenantRow = TenantRow(id: string, status: TenantStatus, started: bool, ended: bool)

  datatype RolloutStatus = Running | Completed | Aborted | RolloutFailed

  datatype Tables = Tables(rows: seq<TenantRow>, status: RolloutStatus, abort: bool, failedTenant: Option<string>)

  datatype Update = Start | Succeed | Fail | Skip

  function Apply(row: TenantRow, u: Update): TenantRow {
    match u
    case Start => row.(started := true)
    case Succeed => row.(status := Succeeded, ended := true)
    case Fail => row.(status := Failed, ended := true)
    case Skip => if row.status.Pending? then row.(status := Skipped, ended := true) else row
  }

  // UPDATE ... WHERE tenant_id = id
  function Updated(rows: seq<TenantRow>, id: string, u: Update): (r: seq<TenantRow>)
    ensures |r| == |rows|
    ensures forall i | 0 <= i < |rows| :: r[i] == if rows[i].id == id then Apply(rows[i], u) else rows[i]
  {
    if rows == [] then []
    else [if rows[0].id == id then Apply(rows[0], u) else rows[0]] + Updated(rows[1..], id, u)
  }

  function Coalesce(a: Option<string>, b: Option<string>): Option<string> {
    if a.Some? then a else b
  }

  function Finalized(t: Tables, status: RolloutStatus, failedTenant: Option<string>): Tables {
    t.(status := status, failedTenant := Coalesce(failedTenant, t.failedTenant))
  }

  // ------------------------------------------------------------------------------------------
  // The shapes a rollout passes through: k tenants succeeded, then at most one that is being
  // worked on or that failed, or those skipped by an abort up to m, then the untouched rest.

  datatype Progress = Idle(k: nat) | Busy(k: nat) | Halted(k: nat) | Skipping(k: nat, m: nat)

  predicate Within(p: Progress, n: nat) {
    match p case Idle(k) => k <= n case Busy(k) => k < n case Halted(k) => k < n case Skipping(k, m) => k <= m <= n
  }

  function Expected(id: string, i: nat, p: Progress): TenantRow {
    if i < p.k then TenantRow(id, Succeeded, true, true)
    else if p.Busy? && i == p.k then TenantRow(id, Pending, true, false)
    else if p.Halted? && i == p.k then TenantRow(id, Failed, true, true)
    else if p.Skipping? && i < p.m then TenantRow(id, Skipped, false, true)
    else TenantRow(id, Pending, false, false)
  }

  // rows holds the eligible tenants of the snapshot in order, then the ineligible ones.
  ghost predicate Laid(ids: seq<string>, others: seq<string>, rows: seq<TenantRow>, p: Progress) {
    && Within(p, |ids|) && |rows| == |ids| + |others|
    && (forall i | 0 <= i < |ids| :: rows[i] == Expected(ids[i], i, p))
    && forall i | |ids| <= i < |rows| :: rows[i] == TenantRow(others[i - |ids|], Skipped, false, true)
  }

  // The i-th row as startFleetRollout inserts it, and the rows of a start that got so far.
  function FirstRow(ids: seq<string>, others: seq<string>, i: nat): TenantRow
    requires i < |ids| + |others|
  {
    if i < |ids| then TenantRow(ids[i], Pending, false, false) else TenantRow(others[i - |ids|], Skipped, false, true)
  }

  ghost predicate PartLaid(ids: seq<string>, others: seq<string>, rows: seq<TenantRow>) {
    |rows| <= |ids| + |others| && forall i | 0 <= i < |rows| :: rows[i] == FirstRow(ids, others, i)
  }

  // What the tables may look like at any moment.
  ghost predicate Legal(ids: seq<string>, others: seq<string>, t: Tables, p: Progress) {
    && Laid(ids, others, t.rows, p)
    && (p.Skipping? ==> t.abort)
    && (t.status.Completed? ==> p == Idle(|ids|))
    && (t.status.Aborted? ==> p.Skipping? && p.m == |ids|)
  }

  ghost predicate IsLegal(ids: seq<string>, others: seq<string>, t: Tables) {
    exists p :: Legal(ids, others, t, p)
  }

  ghost predicate Distinct(ids: seq<string>, others: seq<string>) {
    && (forall i, j | 0 <= i < j < |ids| :: ids[i] != ids[j])
    && forall i, j | 0 <= i < |ids| && 0 <= j < |others| :: ids[i] != others[j]
  }

  datatype Turn = Next | Stop | Threw

  // The moves of the orchestrator.
  function Target(p: Progress, u: Update): Progress {
    match u
    case Start => Busy(p.k)
    case Succeed => Idle(p.k + 1)
    case Fail => Halted(p.k)
    case Skip => if p.Skipping? then Skipping(p.k, p.m + 1) else p
  }

  predicate Moves(p: Progress, u: Update, i: nat) {
    match u
    case Start => p.Idle? && p.k == i
    case Succeed => p.Busy? && p.k == i
    case Fail => p.Busy? && p.k == i
    case Skip => p.Skipping? && p.m == i
  }

  lemma RowMoves(id: string, j: nat, p: Progress, u: Update, i: nat)
    requires Moves(p, u, i)
    ensures Expected(id, j, Target(p, u)) == if j == i then Apply(Expected(id, j, p), u) else Expected(id, j, p)
  {
  }

  lemma UpdateMovesAt(ids: seq<string>, others: seq<string>, rows: seq<TenantRow>, p: Progress, u: Update, i: nat,
                      j: nat)
    requires Distinct(ids, others) && Laid(ids, others, rows, p) && i < |ids| && Moves(p, u, i) && j < |rows|
    ensures Updated(rows, ids[i], u)[j] == if j < |ids| then Expected(ids[j], j, Target(p, u)) else rows[j]
  {
    hide Expected, Apply, Moves, Target;
    if j < |ids| {
      assert rows[j] == Expected(ids[j], j, p);
      assert Expected(ids[j], j, p).id == ids[j] by { ExpectedIds(ids, p); }
      RowMoves(ids[j], j, p, u, i);
    }
  }

  lemma UpdateMoves(ids: seq<string>, others: seq<string>, rows: seq<TenantRow>, p: Progress, u: Update, i: nat)
    requires Distinct(ids, others) && Laid(ids, others, rows, p) && i < |ids| && Moves(p, u, i)
    ensures Laid(ids, others, Updated(rows, ids[i], u), Target(p, u))
  {
    hide Expected, Updated, Distinct;
    forall j | 0 <= j < |rows|
      ensures Updated(rows, ids[i], u)[j] == if j < |ids| then Expected(ids[j], j, Target(p, u)) else rows[j]
    {
      UpdateMovesAt(ids, others, rows, p, u, i, j);
    }
  }

  lemma ExpectedIds(ids: seq<string>, p: Progress)
    ensures forall j | 0 <= j < |ids| :: Expected(ids[j], j, p).id == ids[j]
  {
  }

  // ------------------------------------------------------------------------------------------

  class Rollout {
    const ids: seq<string>
    const others: seq<string>
    // Whether every statement succeeds.
    const reliable: bool

    var tables: Tables
    var currentTenantId: Option<string>

    // The tables after every step so far, the provisions begun, and how many of them began with an
    // abort already stored.
    ghost var log: seq<Tables>
    ghost var begun: seq<string>
    ghost var late: nat

    // The log ends with the present, and nothing in it was illegal.
    ghost predicate Logged() reads this {
      log != [] && log[|log| - 1] == tables && forall t | t in log :: IsLegal(ids, others, t)
    }

    // The rollout row, inserted before those of the tenants.
    constructor (ids: seq<string>, others: seq<string>, reliable: bool)
      ensures this.ids == ids && this.others == others && this.reliable == reliable
      ensures tables == Tables([], Running, false, None) && log == [] && begun == [] && late == 0
    {
      this.ids, this.others, this.reliable := ids, others, reliable;
      tables := Tables([], Running, false, None);
      currentTenantId, log, begun, late := None, [], [], 0;
    }

    // An insert; an abort may already arrive beside it.
    method InsertRow() returns (ok: bool)
      requires PartLaid(ids, others, tables.rows) && |tables.rows| < |ids| + |others| && tables.status == Running
      modifies this`tables
      ensures tables == old(tables).(rows := tables.rows, abort := tables.abort)
      ensures PartLaid(ids, others, tables.rows)
      ensures |tables.rows| == |old(tables).rows| || |tables.rows| == |old(tables).rows| + 1
      ensures ok ==> |tables.rows| == |old(tables).rows| + 1
      ensures reliable ==> ok
    {
      ok := *;
      ok := ok || reliable;
      var applied: bool := *;
      var requested: bool := *;
      var rows := tables.rows;
      if ok || applied {
        rows := rows + [FirstRow(ids, others, |rows|)];
      }
      tables := tables.(rows := rows, abort := tables.abort || requested);
    }

    // The eligible tenants, then the others, until an insert fails.
    method InsertRows() returns (ok: bool)
      requires tables == Tables([], Running, false, None) && log == []
      modifies this`tables, this`log
      ensures tables == Tables(tables.rows, Running, tables.abort, None) && PartLaid(ids, others, tables.rows)
      ensures ok ==> Legal(ids, others, tables, Idle(0)) && Logged()
      ensures !ok ==> log == []
      ensures reliable ==> ok
    {
      var i := 0;
      while i < |ids| + |others|
        invariant 0 <= i <= |ids| + |others| && |tables.rows| == i && log == []
        invariant tables == Tables(tables.rows, Running, tables.abort, None) && PartLaid(ids, others, tables.rows)
      {
        ok := InsertRow();
        if !ok {
          return;
        }
        i := i + 1;
      }
      assert Legal(ids, others, tables, Idle(0));
      log := [tables];
      return true;
    }

    // An await: abortFleetRollout may store a reason while the rollout is running.
    method Await(ghost p: Progress)
      requires Legal(ids, others, tables, p)
      requires Logged()
      modifies this`tables, this`log
      ensures old(tables).abort ==> tables.abort
      ensures tables == old(tables).(abort := tables.abort) && Legal(ids, others, tables, p)
      ensures Logged()
    {
      var requested: bool := *;
      if requested && tables.status == Running {
        tables := tables.(abort := true);
      }
      assert Legal(ids, others, tables, p);
      log := log + [tables];
    }

    // A statement that changes the rows of one tenant.
    method Write(i: nat, u: Update, ghost p: Progress) returns (ok: bool)
      requires Distinct(ids, others) && Legal(ids, others, tables, p) && tables.status == Running
      requires i < |ids| && Moves(p, u, i)
      requires Logged()
      modifies this`tables, this`log
      ensures old(tables).abort ==> tables.abort
      ensures tables == old(tables).(rows := tables.rows, abort := tables.abort)
      ensures ok ==> Legal(ids, others, tables, Target(p, u))
      ensures !ok ==> Legal(ids, others, tables, p) || Legal(ids, others, tables, Target(p, u))
      ensures reliable ==> ok
      ensures Logged()
    {
      hide Laid, Updated;
      Await(p);
      ok := *;
      ok := ok || reliable;
      var applied: bool := *;
      if ok || applied {
        UpdateMoves(ids, others, tables.rows, p, u, i);
        tables := tables.(rows := Updated(tables.rows, ids[i], u));
        log := log + [tables];
        assert Legal(ids, others, tables, Target(p, u));
        Await(Target(p, u));
      }
    }

    method FinalizeRollout(status: RolloutStatus, failedTenant: Option<string>, ghost p: Progress) returns (ok: bool)
      requires Legal(ids, others, tables, p)
      requires status.Completed? ==> p == Idle(|ids|)
      requires status.Aborted? ==> p.Skipping? && p.m == |ids|
      requires !status.Running?
      requires Logged()
      modifies this`tables, this`log
      ensures old(tables).abort ==> tables.abort
      ensures Legal(ids, others, tables, p)
      ensures tables.rows == old(tables).rows
      ensures ok ==> tables == Finalized(old(tables), status, failedTenant).(abort := tables.abort)
      ensures ok ==> tables.status == status
      ensures ok ==> tables.failedTenant == match failedTenant case Some(_) => failedTenant
                                                               case None => old(tables).failedTenant
      ensures !ok && tables.status != old(tables).status ==> tables.status == status
      ensures reliable ==> ok
      ensures Logged()
    {
      Await(p);
      ok := *;
      ok := ok || reliable;
      var applied: bool := *;
      if ok || applied {
        tables := Finalized(tables, status, failedTenant);
        assert Legal(ids, others, tables, p);
        log := log + [tables];
      }
    }

    method MarkRemainingTenantsSkipped(from: nat) returns (ok: bool, ghost p: Progress)
      requires Distinct(ids, others) && Legal(ids, others, tables, Idle(from)) && tables.status == Running
        && tables.abort
      requires Logged()
      modifies this`tables, this`log
      ensures old(tables).abort ==> tables.abort
      ensures tables == old(tables).(rows := tables.rows, abort := tables.abort)
      ensures Legal(ids, others, tables, p) && p.Skipping? && p.k == from && (ok ==> p.m == |ids|)
      ensures reliable ==> ok
      ensures Logged()
    {
      hide Laid;
      p := Skipping(from, from);
      SameLayout(ids, others, tables, from);
      var i := from;
      while i < |ids|
        invariant from <= i <= |ids| && p == Skipping(from, i)
        invariant tables == old(tables).(rows := tables.rows, abort := tables.abort)
        invariant Legal(ids, others, tables, p) && Logged() && tables.abort
      {
        ok := Write(i, Skip, p);
        if !ok {
          if !Legal(ids, others, tables, p) {
            p := Target(p, Skip);
          }
          return;
        }
        i, p := i + 1, Target(p, Skip);
      }
      ok := true;
    }

    // One turn of the loop, from marking the tenant started to marking how it went.
    method ProvisionOne(i: nat, ghost p: Progress) returns (turn: Turn, ghost q: Progress)
      requires Distinct(ids, others) && Legal(ids, others, tables, p) && tables.status == Running
      requires p == Idle(i) && i < |ids| && begun == ids[..i] && late == 0 && Logged()
      modifies this
      ensures old(tables).abort ==> tables.abort
      ensures Legal(ids, others, tables, q) && Logged()
      ensures begun == ids[..i] || begun == ids[..i + 1]
      ensures late <= 1 && (late == 1 ==> tables.abort)
      ensures turn.Next? ==> q == Idle(i + 1) && begun == ids[..i + 1]
      ensures turn.Next? ==> tables.status == Running && currentTenantId == None
      ensures q.k <= |begun| <= q.k + 1
      ensures turn.Stop? ==> Ended(q)
      ensures turn.Threw? ==> currentTenantId == Some(ids[i]) && !reliable
    {
      hide Legal;
      currentTenantId := Some(ids[i]);
      var ok := Write(i, Start, p);
      if !ok {
        return Threw, Unclear(p, Start);
      }
      q := Busy(i);
      assert ids[..i + 1] == ids[..i] + [ids[i]];
      begun := begun + [ids[i]];
      if tables.abort {
        late := late + 1;
      }
      Await(q);
      var provisioned: bool := *;
      if provisioned {
        ok := Write(i, Succeed, q);
        if !ok {
          return Threw, Unclear(q, Succeed);
        }
        currentTenantId := None;
        return Next, Idle(i + 1);
      }
      ok := Write(i, Fail, q);
      if !ok {
        return Threw, Unclear(q, Fail);
      }
      ok := FinalizeRollout(RolloutFailed, Some(ids[i]), Halted(i));
      if !ok {
        return Threw, Halted(i);
      }
      currentTenantId := None;
      return Stop, Halted(i);
    }

    // Where a failed statement may have left the rows.
    ghost function Unclear(p: Progress, u: Update): Progress reads this {
      if Legal(ids, others, tables, p) then p else Target(p, u)
    }

    // The loop over the tenants; threw is the exception that the caller catches.
    method ProvisionAll() returns (threw: bool, ghost p: Progress)
      requires Distinct(ids, others) && Legal(ids, others, tables, Idle(0)) && tables.status == Running
      requires begun == [] && late == 0 && Logged()
      modifies this
      ensures Legal(ids, others, tables, p) && Logged()
      ensures begun <= ids && p.k <= |begun| <= p.k + 1 && late <= 1
      ensures reliable ==> !threw
      ensures !threw ==> Ended(p)
    {
      hide Legal;
      var i := 0;
      p := Idle(0);
      currentTenantId := None;
      while i < |ids|
        invariant 0 <= i <= |ids| && p == Idle(i) && Legal(ids, others, tables, p)
        invariant tables.status == Running && begun == ids[..i] && late <= 1 && (late == 1 ==> tables.abort)
        invariant Logged()
      {
        Await(p);
        threw := *;
        if threw && !reliable {
          return true, p;
        }
        if tables.abort {
          var ok;
          ok, p := MarkRemainingTenantsSkipped(i);
          if ok {
            ok := FinalizeRollout(Aborted, None, p);
          }
          return !ok, p;
        }
        var turn;
        turn, p := ProvisionOne(i, p);
        if !turn.Next? {
          return turn.Threw?, p;
        }
        i := i + 1;
      }
      var ok := FinalizeRollout(Completed, None, p);
      return !ok, p;
    }

    // How a rollout ends whose orchestrator met no database failure.
    ghost predicate Ended(p: Progress) reads this {
      match tables.status
      case Running => false
      case Completed => p == Idle(|ids|)
      case Aborted => tables.abort && p.Skipping? && p.m == |ids| && p.k < |ids|
      case RolloutFailed => p.Halted? && p.k < |ids| && tables.failedTenant == Some(ids[p.k])
    }

    // Every step leaves the tables legal; the provisions begun are the first tenants in order, at
    // most one of them with an abort stored; and without database failures the outcome says what
    // happened.
    method RunRollout() returns (ghost p: Progress)
      requires Distinct(ids, others) && Legal(ids, others, tables, Idle(0)) && tables.status == Running
      requires begun == [] && late == 0 && Logged()
      modifies this
      ensures Legal(ids, others, tables, p) && Logged()
      ensures begun <= ids && p.k <= |begun| <= p.k + 1 && late <= 1
      ensures reliable ==> Ended(p)
    {
      var threw;
      threw, p := ProvisionAll();
      if threw {
        var _ := FinalizeRollout(RolloutFailed, currentTenantId, p);
      }
    }
  }

  lemma SameLayout(ids: seq<string>, others: seq<string>, t: Tables, k: nat)
    requires Legal(ids, others, t, Idle(k)) && t.status == Running && t.abort
    ensures Legal(ids, others, t, Skipping(k, k)) && k <= |ids|
  {
  }

  // ------------------------------------------------------------------------------------------
  // What the status page reports.

  function Count(rows: seq<TenantRow>, n: nat, status: TenantStatus): nat
    requires n <= |rows|
  {
    if n == 0 then 0 else Count(rows, n - 1, status) + if rows[n - 1].status == status then 1 else 0
  }

  lemma {:induction false} CountsTo(ids: seq<string>, others: seq<string>, rows: seq<TenantRow>, p: Progress, n: nat)
    requires Laid(ids, others, rows, p) && n <= |rows|
    ensures Count(rows, n, Succeeded) == Least(n, p.k)
    ensures Count(rows, n, Failed) == if p.Halted? && n > p.k then 1 else 0
    ensures Count(rows, n, Skipped)
         == (if p.Skipping? && n > p.k then Least(n, p.m) - p.k else 0) + if n > |ids| then n - |ids| else 0
    ensures Count(rows, n, Succeeded) + Count(rows, n, Failed) + Count(rows, n, Skipped) + Count(rows, n, Pending) == n
  {
    if n > 0 {
      CountsTo(ids, others, rows, p, n - 1);
    }
  }

  // The four counts make up the snapshot, and say how far the rollout is.
  lemma CountsExactly(ids: seq<string>, others: seq<string>, t: Tables, p: Progress)
    requires Legal(ids, others, t, p)
    ensures var n := |t.rows|;
      var succeeded, failed := Count(t.rows, n, Succeeded), Count(t.rows, n, Failed);
      var skipped, pending := Count(t.rows, n, Skipped), Count(t.rows, n, Pending);
      && succeeded + failed + skipped + pending == |ids| + |others|
      && succeeded == p.k
      && failed == (if p.Halted? then 1 else 0)
      && skipped == |others| + (if p.Skipping? then p.m - p.k else 0)
      && (t.status.Completed? ==> pending == 0 && succeeded == |ids|)
      && (t.status.Aborted? ==> pending == 0 && failed == 0)
  {
    CountsTo(ids, others, t.rows, p, |t.rows|);
  }

  // A row has its end exactly when it is no longer pending, and its beginning exactly when its provision was
  // begun: it succeeded, failed, or is the one being worked on.
  lemma TimesExactly(ids: seq<string>, others: seq<string>, t: Tables, p: Progress, i: nat)
    requires Legal(ids, others, t, p) && i < |t.rows|
    ensures var row := t.rows[i];
      && row.id == (if i < |ids| then ids[i] else others[i - |ids|])
      && (row.ended <==> row.status != Pending)
      && (row.started <==> row.status == Succeeded || row.status == Failed || p == Busy(i))
      && (i >= |ids| ==> row.status == Skipped)
  {
  }

  // The current tenant of the status page: a row that is started and not ended.
  ghost predicate IsCurrent(t: Tables, i: nat) {
    i < |t.rows| && t.rows[i].started && !t.rows[i].ended
  }

  lemma CurrentIsUnique(ids: seq<string>, others: seq<string>, t: Tables, p: Progress)
    requires Legal(ids, others, t, p)
    ensures forall i :: IsCurrent(t, i) <==> p == Busy(i)
    ensures forall i | 0 <= i < |t.rows| :: t.rows[i].status.Failed? <==> p == Halted(i)
  {
  }

  // ------------------------------------------------------------------------------------------
  // The snapshot.

  datatype Tenant = Tenant(id: string, state: string)

  predicate IsEligible(t: Tenant, skipSleeping: bool) {
    t.state == "ready" || (t.state == "sleeping" && !skipSleeping)
  }

  function Chosen(tenants: seq<Tenant>, n: nat, skipSleeping: bool, eligible: bool): seq<string>
    requires n <= |tenants|
  {
    if n == 0 then []
    else
      Chosen(tenants, n - 1, skipSleeping, eligible)
      + if IsEligible(tenants[n - 1], skipSleeping) == eligible then [tenants[n - 1].id] else []
  }

  // The tenants to roll out, or those to leave out, are at these places of the list.
  ghost predicate Picks(tenants: seq<Tenant>, n: nat, skipSleeping: bool, eligible: bool, places: seq<nat>,
                        ids: seq<string>)
  {
    && n <= |tenants| && |places| == |ids|
    && (forall k | 0 <= k < |ids| :: places[k] < n && ids[k] == tenants[places[k]].id)
    && (forall k, l | 0 <= k < l < |ids| :: places[k] < places[l])
    && forall i: nat | i < n ::
         i in places <==> (tenants[i].state == "ready" || (tenants[i].state == "sleeping" && !skipSleeping)) == eligible
  }

  // Ready tenants, and sleeping ones unless they are to be skipped, are chosen, in the order of the list.
  lemma {:induction false} ChosenExactly(tenants: seq<Tenant>, n: nat, skipSleeping: bool, eligible: bool)
    returns (places: seq<nat>)
    requires n <= |tenants|
    ensures Picks(tenants, n, skipSleeping, eligible, places, Chosen(tenants, n, skipSleeping, eligible))
  {
    places := [];
    if n > 0 {
      hide Picks;
      places := ChosenExactly(tenants, n - 1, skipSleeping, eligible);
      PicksMore(tenants, n, skipSleeping, eligible, places, Chosen(tenants, n - 1, skipSleeping, eligible));
      if IsEligible(tenants[n - 1], skipSleeping) == eligible {
        places := places + [n - 1];
      }
    }
  }

  lemma PicksMore(tenants: seq<Tenant>, n: nat, skipSleeping: bool, eligible: bool, places: seq<nat>, ids: seq<string>)
    requires 0 < n <= |tenants| && Picks(tenants, n - 1, skipSleeping, eligible, places, ids)
    ensures if IsEligible(tenants[n - 1], skipSleeping) == eligible
            then Picks(tenants, n, skipSleeping, eligible, places + [n - 1], ids + [tenants[n - 1].id])
            else Picks(tenants, n, skipSleeping, eligible, places, ids)
  {
    var last := n - 1;
    assert last !in places by {
      assert forall k | 0 <= k < |places| :: places[k] < last;
    }
    assert forall i: nat :: i in places + [last] <==> i in places || i == last;
  }

  method SnapshotTenants(tenants: seq<Tenant>, skipSleeping: bool) returns (ids: seq<string>, others: seq<string>)
    ensures ids == Chosen(tenants, |tenants|, skipSleeping, true)
    ensures others == Chosen(tenants, |tenants|, skipSleeping, false)
    ensures exists places :: Picks(tenants, |tenants|, skipSleeping, true, places, ids)
    ensures exists places :: Picks(tenants, |tenants|, skipSleeping, false, places, others)
  {
    ids, others := [], [];
    var i := 0;
    while i < |tenants|
      invariant 0 <= i <= |tenants|
      invariant ids == Chosen(tenants, i, skipSleeping, true) && others == Chosen(tenants, i, skipSleeping, false)
    {
      var sleeping, ready := tenants[i].state == "sleeping", tenants[i].state == "ready";
      if ready || (sleeping && !skipSleeping) {
        ids := ids + [tenants[i].id];
      } else {
        others := others + [tenants[i].id];
      }
      i := i + 1;
    }
    var picked := ChosenExactly(tenants, |tenants|, skipSleeping, true);
    var left := ChosenExactly(tenants, |tenants|, skipSleeping, false);
  }

  lemma {:induction false} ChosenIn(tenants: seq<Tenant>, n: nat, skipSleeping: bool, eligible: bool)
    requires n <= |tenants|
    ensures forall id :: id in Chosen(tenants, n, skipSleeping, eligible) <==>
      exists i :: 0 <= i < n && tenants[i].id == id && IsEligible(tenants[i], skipSleeping) == eligible
  {
    hide IsEligible;
    if n > 0 {
      ChosenIn(tenants, n - 1, skipSleeping, eligible);
      assert tenants[n - 1].id == tenants[n - 1].id;
    }
  }

  lemma {:induction false} ChosenOnce(tenants: seq<Tenant>, n: nat, skipSleeping: bool, eligible: bool)
    requires n <= |tenants| && forall i, j | 0 <= i < j < |tenants| :: tenants[i].id != tenants[j].id
    ensures var ids := Chosen(tenants, n, skipSleeping, eligible);
      forall i, j | 0 <= i < j < |ids| :: ids[i] != ids[j]
  {
    hide IsEligible;
    if n > 0 {
      ChosenOnce(tenants, n - 1, skipSleeping, eligible);
      ChosenIn(tenants, n - 1, skipSleeping, eligible);
      assert tenants[n - 1].id !in Chosen(tenants, n - 1, skipSleeping, eligible);
    }
  }

  lemma {:induction false} ChosenSizes(tenants: seq<Tenant>, n: nat, skipSleeping: bool)
    requires n <= |tenants|
    ensures |Chosen(tenants, n, skipSleeping, true)| + |Chosen(tenants, n, skipSleeping, false)| == n
  {
    if n > 0 {
      ChosenSizes(tenants, n - 1, skipSleeping);
    }
  }

  // Every tenant is in the snapshot once, on one side of it.
  lemma SnapshotSplits(tenants: seq<Tenant>, skipSleeping: bool)
    requires forall i, j | 0 <= i < j < |tenants| :: tenants[i].id != tenants[j].id
    ensures var ids, others := Chosen(tenants, |tenants|, skipSleeping, true),
      Chosen(tenants, |tenants|, skipSleeping, false);
      Distinct(ids, others) && |ids| + |others| == |tenants|
  {
    ChosenIn(tenants, |tenants|, skipSleeping, true);
    ChosenIn(tenants, |tenants|, skipSleeping, false);
    ChosenOnce(tenants, |tenants|, skipSleeping, true);
    ChosenSizes(tenants, |tenants|, skipSleeping);
    var ids, others := Chosen(tenants, |tenants|, skipSleeping, true), Chosen(tenants, |tenants|, skipSleeping, false);
    forall i, j | 0 <= i < |ids| && 0 <= j < |others| ensures ids[i] != others[j] {
      assert ids[i] in ids && others[j] in others;
    }
  }

  // From the tenants table to the end of the rollout. A start that fails leaves no rollout behind, or a
  // running one that is never worked on: with the rows inserted so far, or with all of them when no
  // tenant is eligible and finalizing fails.
  method StartAndRun(tenants: seq<Tenant>, skipSleeping: bool, reliable: bool)
    returns (result: Option<Rollout>, laid: bool, ghost p: Progress)
    requires forall i, j | 0 <= i < j < |tenants| :: tenants[i].id != tenants[j].id
    ensures reliable ==> result.Some? && laid && result.value.Ended(p)
    ensures result.Some? ==>
      var rollout := result.value;
      && rollout.reliable == reliable && |rollout.ids| + |rollout.others| == |tenants|
      && (exists places :: Picks(tenants, |tenants|, skipSleeping, true, places, rollout.ids))
      && (exists places :: Picks(tenants, |tenants|, skipSleeping, false, places, rollout.others))
      && rollout.begun <= rollout.ids && rollout.late <= 1
      && (laid ==> Legal(rollout.ids, rollout.others, rollout.tables, p) && rollout.Logged())
      && (!laid ==> rollout.begun == [] && rollout.tables.status == Running
                    && PartLaid(rollout.ids, rollout.others, rollout.tables.rows))
  {
    hide Picks, Chosen, PartLaid, Legal;
    SnapshotSplits(tenants, skipSleeping);
    var ids, others := SnapshotTenants(tenants, skipSleeping);
    p := Idle(0);
    var inserted: bool := *;
    if !inserted && !reliable {
      return None, false, p;
    }
    var rollout := new Rollout(ids, others, reliable);
    laid := rollout.InsertRows();
    if laid && ids == [] {
      var _ := rollout.FinalizeRollout(Completed, None, p);
    } else if laid {
      p := rollout.RunRollout();
    }
    return Some(rollout), laid, p;
  }
}
