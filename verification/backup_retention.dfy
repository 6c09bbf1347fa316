/**
 The nightly backup tick and its retention sweep, over a blob container and the backup catalog. Any
 call may fail, with or without having had its effect, and the scheduler may be stopped between any
 two tenants or deletions.
 */
module BackupRetention {
  import opened Outcomes
  import opened BlobNames
  import Text
  import Schedule = BackupSchedule

  // A backup_catalog row: the blob its location names, and location_deleted.
  datatype Row = Row(blob: Option<string>, deleted: bool)

  // blobs gives each blob's last modification.
  datatype Store = Store(blobs: map<string, int>, catalog: seq<Row>)

  datatype Blob = Blob(name: string, modified: int)

  // What a deletion and the catalog update after it come to.
  datatype Fate = Deleted(recorded: bool) | DeleteFailed(applied: bool)

  // What a backup comes to: a failed one may have left its blob, and its completed row, behind.
  datatype BackupFate = NotCreated | Broken(stored: Option<int>, recorded: bool) | Completed(at: int)

  // How the statements of a backup end, each the last one if it fails.
  datatype Answer = Answered | Failed | FailedApplied
  datatype Execution = Dumped(at: int) | DumpFailed(stored: Option<int>)
  datatype Attempt = Attempt(create: Answer, running: Answer, execution: Execution, complete: Answer,
                             sourcePath: string, capturedAt: string)

  function FateOf(a: Attempt): BackupFate {
    match a.create
    case Failed => NotCreated
    case FailedApplied => Broken(None, false)
    case Answered =>
      if !a.running.Answered? then Broken(None, false)
      else
        match a.execution
        case DumpFailed(stored) => Broken(stored, false)
        case Dumped(at) =>
          if a.complete.Answered? then Completed(at) else Broken(Some(at), a.complete.FailedApplied?)
  }

  datatype Tenant = Tenant(id: string, state: string, hasStorage: bool)

  // ------------------------------------------------------------------------------------------
  // Deleting a blob.

  function MarkRow(base: string, row: Row, name: string): Row {
    if row.blob.Some? && !row.deleted && EndsWithName(base + "/" + row.blob.value, name) then row.(deleted := true)
    else row
  }

  function MarkRows(base: string, rows: seq<Row>, name: string): (r: seq<Row>)
    ensures |r| == |rows| && forall i | 0 <= i < |rows| :: r[i] == MarkRow(base, rows[i], name)
  {
    if rows == [] then [] else [MarkRow(base, rows[0], name)] + MarkRows(base, rows[1..], name)
  }

  // markBackupCatalogLocationDeletedForBlob; None when the name is rejected.
  function MarkDeleted(base: string, rows: seq<Row>, name: string): Option<seq<Row>> {
    if Metacharacters(name) then None else Some(MarkRows(base, rows, name))
  }

  function AfterDelete(base: string, s: Store, name: string, fate: Fate): Store {
    match fate
    case DeleteFailed(applied) => if applied then s.(blobs := s.blobs - {name}) else s
    case Deleted(recorded) =>
      var marked := MarkDeleted(base, s.catalog, name);
      Store(s.blobs - {name}, if recorded && marked.Some? then marked.value else s.catalog)
  }

  predicate Removes(fate: Fate) {
    match fate case Deleted(_) => true case DeleteFailed(applied) => applied
  }

  // ------------------------------------------------------------------------------------------
  // The sweep.

  ghost predicate Lists(blobs: map<string, int>, cutoff: int, stale: seq<Blob>) {
    && (forall i | 0 <= i < |stale| ::
          stale[i].name in blobs && blobs[stale[i].name] == stale[i].modified && stale[i].modified < cutoff)
    && (forall name | name in blobs && blobs[name] < cutoff :: exists i :: 0 <= i < |stale| && stale[i].name == name)
    && (forall i, j | 0 <= i < j < |stale| :: stale[i].name != stale[j].name)
  }

  function Newest(stale: seq<Blob>, n: nat): map<string, Blob>
    requires n <= |stale|
  {
    if n == 0 then map[]
    else
      var before, blob := Newest(stale, n - 1), stale[n - 1];
      var prefix := Prefix(blob.name);
      if prefix !in before || blob.modified > before[prefix].modified then before[prefix := blob] else before
  }

  predicate Spared(newest: map<string, Blob>, succeeded: set<string>, name: string) {
    var prefix := Prefix(name);
    prefix in newest && newest[prefix].name == name && prefix !in succeeded
  }

  function Swept(base: string, s: Store, stale: seq<Blob>, newest: map<string, Blob>, succeeded: set<string>,
                 fates: string -> Fate, n: nat): Store
    requires n <= |stale|
  {
    if n == 0 then s
    else
      var before, name := Swept(base, s, stale, newest, succeeded, fates, n - 1), stale[n - 1].name;
      if Spared(newest, succeeded, name) then before else AfterDelete(base, before, name, fates(name))
  }

  // ------------------------------------------------------------------------------------------
  // The backups of a tick.

  predicate Eligible(t: Tenant) {
    (t.state == "ready" || t.state == "sleeping") && t.hasStorage
  }

  function EligibleOf(tenants: seq<Tenant>): seq<Tenant> {
    if tenants == [] then []
    else (if Eligible(tenants[0]) then [tenants[0]] else []) + EligibleOf(tenants[1..])
  }

  function NameOf(tenant: Tenant, a: Attempt): string {
    BuildBlobName(tenant.id, a.sourcePath, a.capturedAt)
  }

  function AfterBackup(s: Store, tenant: Tenant, a: Attempt): Store {
    var name := NameOf(tenant, a);
    match FateOf(a)
    case NotCreated => s
    case Completed(at) => Store(s.blobs[name := at], s.catalog + [Row(Some(name), false)])
    case Broken(None, _) => s.(catalog := s.catalog + [Row(None, false)])
    case Broken(Some(at), recorded) =>
      Store(s.blobs[name := at], s.catalog + [Row(if recorded then Some(name) else None, false)])
  }

  function AfterBackups(s: Store, tenants: seq<Tenant>, attempts: nat -> Attempt, n: nat): Store
    requires n <= |tenants|
  {
    if n == 0 then s else AfterBackup(AfterBackups(s, tenants, attempts, n - 1), tenants[n - 1], attempts(n - 1))
  }

  function Succeeded(tenants: seq<Tenant>, attempts: nat -> Attempt, n: nat): set<string>
    requires n <= |tenants|
  {
    if n == 0 then {}
    else Succeeded(tenants, attempts, n - 1)
         + if FateOf(attempts(n - 1)).Completed? then {Sanitised(tenants[n - 1].id)} else {}
  }

  // Everything about a tick that is not decided by the scheduler. The stops count the loop turns
  // before stop() is called; days is the retention, 0 or less when there is no sweep.
  datatype World = World(start: int, tenants: Option<seq<Tenant>>, attempts: nat -> Attempt, stopBackups: nat,
                         now: int, days: int, listFails: bool, fates: string -> Fate, stopSweep: nat)

  function Cutoff(w: World): int {
    w.now - w.days * Schedule.DAY
  }

  ghost predicate TickStep(base: string, s: Store, w: World, t: Store) {
    if w.tenants.None? then t == s
    else
      var tenants := EligibleOf(w.tenants.value);
      var backed := AfterBackups(s, tenants, w.attempts, Least(|tenants|, w.stopBackups));
      if w.stopBackups < |tenants| || w.days <= 0 || w.listFails then t == backed
      else exists stale :: SweepStep(base, backed, w, Succeeded(tenants, w.attempts, |tenants|), stale, t)
  }

  ghost predicate SweepStep(base: string, s: Store, w: World, succeeded: set<string>, stale: seq<Blob>, t: Store) {
    && Lists(s.blobs, Cutoff(w), stale)
    && t == Swept(base, s, stale, Newest(stale, |stale|), succeeded, w.fates, Least(|stale|, w.stopSweep))
  }

  class Scheduler {
    const base: string
    var blobs: map<string, int>
    var catalog: seq<Row>
    var stopped: bool

    function State(): Store reads this {
      Store(blobs, catalog)
    }

    constructor (base: string, blobs: map<string, int>, catalog: seq<Row>)
      ensures this.base == base && State() == Store(blobs, catalog) && !stopped
    {
      this.base, this.blobs, this.catalog, stopped := base, blobs, catalog, false;
    }

    method Stop()
      modifies this`stopped
      ensures stopped
    {
      stopped := true;
    }

    method ListBlobsOlderThan(cutoff: int) returns (stale: seq<Blob>)
      ensures Lists(blobs, cutoff, stale)
    {
      stale := [];
      var left := blobs.Keys;
      while left != {}
        invariant left <= blobs.Keys
        invariant forall name | name in blobs && name !in left && blobs[name] < cutoff ::
          exists i :: 0 <= i < |stale| && stale[i].name == name
        invariant forall i | 0 <= i < |stale| ::
          stale[i].name in blobs && stale[i].name !in left
          && blobs[stale[i].name] == stale[i].modified && stale[i].modified < cutoff
        invariant forall i, j | 0 <= i < j < |stale| :: stale[i].name != stale[j].name
        decreases left
      {
        var name :| name in left;
        ghost var before := stale;
        left := left - {name};
        if blobs[name] < cutoff {
          stale := stale + [Blob(name, blobs[name])];
          assert stale[|before|].name == name;
        }
        assert forall i | 0 <= i < |before| :: stale[i] == before[i];
      }
    }

    method DeleteBlob(name: string, fate: Fate) returns (ok: bool)
      modifies this`blobs
      ensures ok == fate.Deleted?
      ensures blobs == if Removes(fate) then old(blobs) - {name} else old(blobs)
    {
      if Removes(fate) {
        blobs := blobs - {name};
      }
      ok := fate.Deleted?;
    }

    // createBackupRun, markBackupRunRunning, executeBackup, markBackupRunCompleted: true only when all
    // four succeed, and then the blob is there and the row names it.
    method BackupOneTenant(tenant: Tenant, a: Attempt) returns (ok: bool)
      modifies this`blobs, this`catalog
      ensures State() == AfterBackup(old(State()), tenant, a)
      ensures ok <==> a.create.Answered? && a.running.Answered? && a.execution.Dumped? && a.complete.Answered?
      ensures ok <==> FateOf(a).Completed?
      ensures ok ==> blobs == old(blobs)[NameOf(tenant, a) := a.execution.at]
      ensures ok ==> catalog == old(catalog) + [Row(Some(NameOf(tenant, a)), false)]
    {
      var name, run := NameOf(tenant, a), |catalog|;
      if !a.create.Failed? {
        catalog := catalog + [Row(None, false)];
      }
      if !a.create.Answered? || !a.running.Answered? {
        return false;
      }
      match a.execution {
        case DumpFailed(stored) =>
          if stored.Some? {
            blobs := blobs[name := stored.value];
          }
          return false;
        case Dumped(at) =>
          blobs := blobs[name := at];
          if !a.complete.Failed? {
            catalog := catalog[run := Row(Some(name), false)];
            assert catalog == old(catalog) + [Row(Some(name), false)];
          }
          return a.complete.Answered?;
      }
    }

    method RunRetentionSweep(succeeded: set<string>, w: World) returns (stale: seq<Blob>)
      requires !stopped
      modifies this
      ensures w.listFails ==> State() == old(State())
      ensures !w.listFails ==> SweepStep(base, old(State()), w, succeeded, stale, State())
    {
      hide Prefix, Lists, AfterDelete;
      stale := [];
      if w.listFails {
        return;
      }
      stale := ListBlobsOlderThan(Cutoff(w));
      var newest: map<string, Blob> := map[];
      var i := 0;
      while i < |stale|
        invariant 0 <= i <= |stale| && State() == old(State()) && !stopped
        invariant newest == Newest(stale, i)
      {
        var prefix := Prefix(stale[i].name);
        if prefix !in newest || stale[i].modified > newest[prefix].modified {
          newest := newest[prefix := stale[i]];
        }
        i := i + 1;
      }
      i := 0;
      while i < |stale|
        invariant 0 <= i <= |stale| && i <= w.stopSweep && !stopped
        invariant State() == Swept(base, old(State()), stale, newest, succeeded, w.fates, i)
      {
        if i == w.stopSweep {
          Stop();
        }
        if stopped {
          return;
        }
        var name := stale[i].name;
        i := i + 1;
        if Spared(newest, succeeded, name) {
          continue;
        }
        SweepOne(name, w.fates(name));
      }
    }

    method SweepOne(name: string, fate: Fate)
      modifies this`blobs, this`catalog
      ensures State() == AfterDelete(base, old(State()), name, fate)
    {
      var ok := DeleteBlob(name, fate);
      if !ok {
        return;
      }
      var marked := MarkDeleted(base, catalog, name);
      if fate.recorded && marked.Some? {
        catalog := marked.value;
      }
    }

    method Tick(w: World)
      requires !stopped
      modifies this
      ensures TickStep(base, old(State()), w, State())
    {
      hide SweepStep, AfterBackup, Sanitised, EligibleOf;
      if w.tenants.None? {
        return;
      }
      var tenants := EligibleOf(w.tenants.value);
      var succeeded: set<string> := {};
      var i := 0;
      while i < |tenants|
        invariant 0 <= i <= |tenants| && i <= w.stopBackups && !stopped
        invariant State() == AfterBackups(old(State()), tenants, w.attempts, i)
        invariant succeeded == Succeeded(tenants, w.attempts, i)
      {
        if i == w.stopBackups {
          Stop();
        }
        if stopped {
          return;
        }
        var ok := BackupOneTenant(tenants[i], w.attempts(i));
        if ok {
          succeeded := succeeded + {Sanitised(tenants[i].id)};
        }
        i := i + 1;
      }
      if w.days > 0 {
        var _ := RunRetentionSweep(succeeded, w);
      }
    }
  }

  // Sleeping tenants are backed up like ready ones; no tenant without storage is.
  lemma {:induction false} EligibleExactly(tenants: seq<Tenant>, t: Tenant)
    ensures t in EligibleOf(tenants) <==> t in tenants && t.hasStorage && (t.state == "ready" || t.state == "sleeping")
  {
    if tenants != [] {
      EligibleExactly(tenants[1..], t);
    }
  }

  // What a backup leaves, by the answers of its four statements alone: its row unless the first failed without
  // effect; its blob when the first two succeeded and the dump was stored; and in the row its name when the
  // last one took effect.
  lemma BackupExactly(s: Store, tenant: Tenant, a: Attempt)
    ensures var t := AfterBackup(s, tenant, a);
      var name := BuildBlobName(tenant.id, a.sourcePath, a.capturedAt);
      var begun := a.create == Answered && a.running == Answered;
      && t.blobs == (if begun && a.execution.Dumped? then s.blobs[name := a.execution.at]
                     else if begun && a.execution.stored.Some? then s.blobs[name := a.execution.stored.value]
                     else s.blobs)
      && t.catalog == (if a.create == Failed then s.catalog
                       else s.catalog + [Row(if begun && a.execution.Dumped? && a.complete != Failed then Some(name)
                                             else None, false)])
  {
    hide BuildBlobName;
  }

  // The prefixes that are told to the sweep are those of the tenants backed up with every statement answered.
  lemma {:induction false} SucceededExactly(tenants: seq<Tenant>, attempts: nat -> Attempt, n: nat, p: string)
    requires n <= |tenants|
    ensures p in Succeeded(tenants, attempts, n) <==>
      exists k: nat :: k < n && p == Sanitised(tenants[k].id) && AllAnswered(attempts(k))
  {
    hide Sanitised;
    if n > 0 {
      SucceededExactly(tenants, attempts, n - 1, p);
    }
  }

  predicate AllAnswered(a: Attempt) {
    a.create == Answered && a.running == Answered && a.execution.Dumped? && a.complete == Answered
  }

  // ------------------------------------------------------------------------------------------
  // What a sweep removes.

  ghost predicate Leads(stale: seq<Blob>, n: nat, i: int) {
    && 0 <= i < n <= |stale|
    && forall j | 0 <= j < n && Prefix(stale[j].name) == Prefix(stale[i].name) ::
         stale[j].modified <= stale[i].modified && (j < i ==> stale[j].modified < stale[i].modified)
  }

  // Each listed prefix maps to the first of its most recently modified blobs.
  lemma {:induction false} NewestLeads(stale: seq<Blob>, n: nat, p: string) returns (i: nat)
    requires n <= |stale| && p in Newest(stale, n)
    ensures Leads(stale, n, i) && Prefix(stale[i].name) == p && stale[i] == Newest(stale, n)[p]
  {
    hide Prefix;
    i := n - 1;
    if p in Newest(stale, n - 1) {
      var k := NewestLeads(stale, n - 1, p);
      if Newest(stale, n)[p] == stale[k] && !(Prefix(stale[i].name) == p && stale[i].modified > stale[k].modified) {
        i := k;
      }
    } else {
      NewestHas(stale, n - 1);
    }
  }

  lemma {:induction false} NewestHas(stale: seq<Blob>, n: nat)
    requires n <= |stale|
    ensures forall i | 0 <= i < n :: Prefix(stale[i].name) in Newest(stale, n)
  {
    hide Prefix;
    if n > 0 {
      NewestHas(stale, n - 1);
    }
  }

  function RemovedBy(stale: seq<Blob>, newest: map<string, Blob>, succeeded: set<string>, fates: string -> Fate,
                     n: nat): set<string>
    requires n <= |stale|
  {
    set i | 0 <= i < n && !Spared(newest, succeeded, stale[i].name) && Removes(fates(stale[i].name)) :: stale[i].name
  }

  lemma {:induction false} SweptBlobs(base: string, s: Store, stale: seq<Blob>, newest: map<string, Blob>,
                                      succeeded: set<string>, fates: string -> Fate, n: nat)
    requires n <= |stale|
    ensures Swept(base, s, stale, newest, succeeded, fates, n).blobs
         == s.blobs - RemovedBy(stale, newest, succeeded, fates, n)
  {
    hide Spared, MarkDeleted;
    if n > 0 {
      SweptBlobs(base, s, stale, newest, succeeded, fates, n - 1);
      var name, before := stale[n - 1].name, RemovedBy(stale, newest, succeeded, fates, n - 1);
      var removed := !Spared(newest, succeeded, name) && Removes(fates(name));
      assert RemovedBy(stale, newest, succeeded, fates, n) == before + if removed then {name} else {};
      assert (s.blobs - before) - {name} == s.blobs - (before + {name});
      assert before + {} == before;
    }
  }

  ghost predicate Holds(blobs: map<string, int>, prefix: string) {
    exists name :: name in blobs && Prefix(name) == prefix
  }

  ghost predicate HoldsSince(blobs: map<string, int>, prefix: string, cutoff: int) {
    exists name :: name in blobs && Prefix(name) == prefix && blobs[name] >= cutoff
  }

  // A prefix keeps a blob through any sweep, however many of its deletions are reached or fail,
  // provided the prefixes it was told succeeded have one newer than the cutoff.
  lemma SweepKeepsPrefix(base: string, s: Store, w: World, succeeded: set<string>, stale: seq<Blob>, t: Store,
                         p: string)
    requires SweepStep(base, s, w, succeeded, stale, t) && Holds(s.blobs, p)
    requires p in succeeded ==> HoldsSince(s.blobs, p, Cutoff(w))
    ensures Holds(t.blobs, p)
  {
    hide Prefix, Swept, Newest;
    var newest, n := Newest(stale, |stale|), Least(|stale|, w.stopSweep);
    SweptBlobs(base, s, stale, newest, succeeded, w.fates, n);
    var name :| name in s.blobs && Prefix(name) == p && (p in succeeded ==> s.blobs[name] >= Cutoff(w));
    if s.blobs[name] >= Cutoff(w) {
      assert name in t.blobs;
    } else {
      NewestHas(stale, |stale|);
      var i :| 0 <= i < |stale| && stale[i].name == name;
      var _ := NewestLeads(stale, |stale|, p);
      assert Spared(newest, succeeded, newest[p].name);
      assert newest[p].name in t.blobs;
    }
  }

  // A sweep in which nothing fails keeps exactly the blobs that are recent enough and, of each
  // prefix that was not backed up, the newest old one.
  lemma CompleteSweep(base: string, s: Store, w: World, succeeded: set<string>, stale: seq<Blob>, t: Store,
                      name: string)
    requires SweepStep(base, s, w, succeeded, stale, t) && w.stopSweep >= |stale|
    requires forall n :: Removes(w.fates(n))
    ensures name in t.blobs <==>
      && name in s.blobs
      && (s.blobs[name] >= Cutoff(w)
          || (Prefix(name) !in succeeded && exists i :: Leads(stale, |stale|, i) && stale[i].name == name))
  {
    hide Prefix, Swept, Newest;
    var newest := Newest(stale, |stale|);
    SweptBlobs(base, s, stale, newest, succeeded, w.fates, |stale|);
    NewestHas(stale, |stale|);
    if name in s.blobs && s.blobs[name] < Cutoff(w) {
      var i: nat :| i < |stale| && stale[i].name == name;
      var k := NewestLeads(stale, |stale|, Prefix(name));
      if Leads(stale, |stale|, i) {
        OneLeader(stale, i, k);
      }
    }
  }

  lemma OneLeader(stale: seq<Blob>, i: nat, k: nat)
    requires Leads(stale, |stale|, i) && Leads(stale, |stale|, k) && Prefix(stale[i].name) == Prefix(stale[k].name)
    ensures i == k
  {
    hide Prefix;
  }

  // After a sweep without failures a prefix holds a blob if and only if it was not backed up or has a
  // blob as recent as the cutoff.
  lemma CompleteSweepHolds(base: string, s: Store, w: World, succeeded: set<string>, stale: seq<Blob>, t: Store,
                           p: string)
    requires SweepStep(base, s, w, succeeded, stale, t) && w.stopSweep >= |stale| && Holds(s.blobs, p)
    requires forall n :: Removes(w.fates(n))
    ensures Holds(t.blobs, p) <==> (p in succeeded ==> HoldsSince(s.blobs, p, Cutoff(w)))
  {
    hide Prefix, Swept, Newest, Leads;
    if p in succeeded ==> HoldsSince(s.blobs, p, Cutoff(w)) {
      SweepKeepsPrefix(base, s, w, succeeded, stale, t, p);
    } else {
      forall name | Prefix(name) == p ensures name !in t.blobs {
        CompleteSweep(base, s, w, succeeded, stale, t, name);
      }
    }
  }

  lemma {:induction false} ListedSize(blobs: map<string, int>, cutoff: int, stale: seq<Blob>)
    requires Lists(blobs, cutoff, stale)
    ensures |stale| <= |blobs|
  {
    var names := set i | 0 <= i < |stale| :: stale[i].name;
    DistinctNames(stale, |stale|);
    assert names <= blobs.Keys;
    SubsetSize(names, blobs.Keys);
  }

  lemma {:induction false} DistinctNames(stale: seq<Blob>, n: nat)
    requires n <= |stale| && forall i, j | 0 <= i < j < |stale| :: stale[i].name != stale[j].name
    ensures |set i | 0 <= i < n :: stale[i].name| == n
  {
    if n > 0 {
      DistinctNames(stale, n - 1);
      var before := set i | 0 <= i < n - 1 :: stale[i].name;
      assert (set i | 0 <= i < n :: stale[i].name) == before + {stale[n - 1].name};
    }
  }

  lemma {:induction false} SubsetSize(a: set<string>, b: set<string>)
    requires a <= b
    ensures |a| <= |b|
  {
    if a != {} {
      var x :| x in a;
      SubsetSize(a - {x}, b - {x});
    }
  }

  lemma OneMoreListed(blobs: map<string, int>, cutoff: int, name: string, before: seq<Blob>)
    requires name in blobs && Lists(blobs - {name}, cutoff, before)
    ensures Lists(blobs, cutoff, if blobs[name] < cutoff then before + [Blob(name, blobs[name])] else before)
  {
    var stale := if blobs[name] < cutoff then before + [Blob(name, blobs[name])] else before;
    forall other | other in blobs && blobs[other] < cutoff
      ensures exists i :: 0 <= i < |stale| && stale[i].name == other
    {
      if other == name {
        assert stale[|before|].name == other;
      } else {
        assert other in blobs - {name} && (blobs - {name})[other] < cutoff;
        var i :| 0 <= i < |before| && before[i].name == other;
        assert stale[i].name == other;
      }
    }
  }

  lemma {:induction false} ListingExists(blobs: map<string, int>, cutoff: int) returns (stale: seq<Blob>)
    ensures Lists(blobs, cutoff, stale)
    decreases |blobs|
  {
    stale := [];
    if blobs != map[] {
      var name :| name in blobs;
      var before := ListingExists(blobs - {name}, cutoff);
      OneMoreListed(blobs, cutoff, name, before);
      hide Lists;
      stale := if blobs[name] < cutoff then before + [Blob(name, blobs[name])] else before;
    }
  }

  // ------------------------------------------------------------------------------------------
  // What the catalog says about deleted blobs.

  // The container holds built names, and a row is flagged only when its blob is gone.
  ghost predicate Truthful(s: Store) {
    && (forall name | name in s.blobs :: TwoSegments(name))
    && forall i | 0 <= i < |s.catalog| ::
         && (s.catalog[i].blob.Some? ==> TwoSegments(s.catalog[i].blob.value))
         && (s.catalog[i].deleted ==> s.catalog[i].blob.Some? && s.catalog[i].blob.value !in s.blobs)
  }

  // The update flags the rows of that blob and no others; it is refused for names with a
  // metacharacter, whose rows stay as they are.
  lemma MarkedExactly(base: string, rows: seq<Row>, name: string)
    requires TwoSegments(name) && forall i | 0 <= i < |rows| :: rows[i].blob.Some? ==> TwoSegments(rows[i].blob.value)
    ensures var marked := MarkDeleted(base, rows, name);
      && (marked.None? <==> Metacharacters(name))
      && (marked.Some? ==>
            && |marked.value| == |rows|
            && forall i | 0 <= i < |rows| ::
                 && marked.value[i].blob == rows[i].blob
                 && (marked.value[i].deleted <==> rows[i].deleted || rows[i].blob == Some(name)))
  {
    hide TwoSegments, EndsWithName, Metacharacters;
    forall i | 0 <= i < |rows| && rows[i].blob.Some?
      ensures EndsWithName(base + "/" + rows[i].blob.value, name) <==> rows[i].blob.value == name
    {
      MatchIsSame(base, rows[i].blob.value, name);
    }
  }

  predicate Markable(name: string) {
    forall i | 0 <= i < |name| :: name[i] != '%' && name[i] != '_' && name[i] != '\\'
  }

  // What one deletion comes to: the blob goes unless the call failed without effect, and exactly the rows
  // that name it are flagged if the call succeeded, the update did too and accepts the name.
  lemma DeletedExactly(base: string, s: Store, name: string, fate: Fate)
    requires Truthful(s) && TwoSegments(name)
    ensures var t := AfterDelete(base, s, name, fate);
      && t.blobs == (if fate == DeleteFailed(false) then s.blobs else s.blobs - {name})
      && |t.catalog| == |s.catalog|
      && forall k | 0 <= k < |s.catalog| ::
           && t.catalog[k].blob == s.catalog[k].blob
           && (t.catalog[k].deleted <==>
                 s.catalog[k].deleted
                 || (fate == Deleted(true) && Markable(name) && s.catalog[k].blob == Some(name)))
  {
    hide TwoSegments, MarkDeleted;
    MarkedExactly(base, s.catalog, name);
    assert Metacharacters(name) <==> !Markable(name);
    hide Metacharacters, Markable;
  }

  lemma DeleteTruthful(base: string, s: Store, name: string, fate: Fate)
    requires Truthful(s) && TwoSegments(name)
    ensures Truthful(AfterDelete(base, s, name, fate))
  {
    hide TwoSegments, MarkDeleted;
    MarkedExactly(base, s.catalog, name);
  }

  lemma {:induction false} SweepTruthful(base: string, s: Store, stale: seq<Blob>, newest: map<string, Blob>,
                                         succeeded: set<string>, fates: string -> Fate, n: nat)
    requires n <= |stale| && Truthful(s) && forall i | 0 <= i < |stale| :: TwoSegments(stale[i].name)
    ensures Truthful(Swept(base, s, stale, newest, succeeded, fates, n))
  {
    hide TwoSegments, Spared, AfterDelete, Truthful;
    if n > 0 {
      SweepTruthful(base, s, stale, newest, succeeded, fates, n - 1);
      var before := Swept(base, s, stale, newest, succeeded, fates, n - 1);
      DeleteTruthful(base, before, stale[n - 1].name, fates(stale[n - 1].name));
    }
  }

  // The i-th listed blob is kept: it is the first of the newest of a prefix that was not backed up.
  ghost predicate Kept(stale: seq<Blob>, succeeded: set<string>, i: nat)
    requires i < |stale|
  {
    Leads(stale, |stale|, i) && Prefix(stale[i].name) !in succeeded
  }

  lemma SparedExactly(blobs: map<string, int>, cutoff: int, stale: seq<Blob>, succeeded: set<string>, i: nat)
    requires Lists(blobs, cutoff, stale) && i < |stale|
    ensures Spared(Newest(stale, |stale|), succeeded, stale[i].name) <==> Kept(stale, succeeded, i)
  {
    hide Prefix, Newest;
    NewestHas(stale, |stale|);
    var k := NewestLeads(stale, |stale|, Prefix(stale[i].name));
    if Leads(stale, |stale|, i) {
      OneLeader(stale, i, k);
    }
  }

  // The deletion of the i-th listed blob is among the first n, and is not spared.
  ghost predicate Tried(stale: seq<Blob>, succeeded: set<string>, n: nat, i: nat) {
    i < n && i < |stale| && !Kept(stale, succeeded, i)
  }

  // One of the first n deletions flags this row.
  ghost predicate FlaggedBy(w: World, succeeded: set<string>, stale: seq<Blob>, n: nat, row: Row) {
    exists i: nat :: Tried(stale, succeeded, n, i) && Flags(w, row, stale[i])
  }

  lemma FlaggedByTurn(w: World, succeeded: set<string>, stale: seq<Blob>, n: nat, row: Row)
    requires n < |stale|
    ensures FlaggedBy(w, succeeded, stale, n + 1, row) <==>
      FlaggedBy(w, succeeded, stale, n, row) || (!Kept(stale, succeeded, n) && Flags(w, row, stale[n]))
  {
    hide Kept, Flags;
    assert forall i: nat :: Tried(stale, succeeded, n, i) ==> Tried(stale, succeeded, n + 1, i);
    if !Kept(stale, succeeded, n) {
      assert Tried(stale, succeeded, n + 1, n);
    }
  }

  lemma {:induction false} SweptFlags(base: string, s: Store, w: World, succeeded: set<string>, stale: seq<Blob>,
                                      n: nat)
    requires n <= |stale| && Truthful(s) && Lists(s.blobs, Cutoff(w), stale)
    ensures var t := Swept(base, s, stale, Newest(stale, |stale|), succeeded, w.fates, n);
      && |t.catalog| == |s.catalog|
      && forall k | 0 <= k < |s.catalog| ::
           && t.catalog[k].blob == s.catalog[k].blob
           && (t.catalog[k].deleted <==>
                 s.catalog[k].deleted || FlaggedBy(w, succeeded, stale, n, s.catalog[k]))
  {
    hide TwoSegments, Truthful, AfterDelete, Spared, Newest, Kept, Lists, Flags, FlaggedBy;
    if n == 0 {
      NoneFlagged(w, succeeded, stale);
    } else {
      var newest := Newest(stale, |stale|);
      var before := Swept(base, s, stale, newest, succeeded, w.fates, n - 1);
      SweptFlags(base, s, w, succeeded, stale, n - 1);
      ListedBuilt(s, Cutoff(w), stale);
      SweepTruthful(base, s, stale, newest, succeeded, w.fates, n - 1);
      SparedExactly(s.blobs, Cutoff(w), stale, succeeded, n - 1);
      FlagsOne(base, before, w, stale[n - 1]);
      forall k | 0 <= k < |s.catalog|
        ensures FlaggedBy(w, succeeded, stale, n, s.catalog[k]) <==>
          FlaggedBy(w, succeeded, stale, n - 1, s.catalog[k])
          || (!Kept(stale, succeeded, n - 1) && Flags(w, before.catalog[k], stale[n - 1]))
      {
        FlaggedByTurn(w, succeeded, stale, n - 1, s.catalog[k]);
        FlagsSame(w, s.catalog[k], before.catalog[k], stale[n - 1]);
      }
    }
  }

  lemma NoneFlagged(w: World, succeeded: set<string>, stale: seq<Blob>)
    ensures forall row :: !FlaggedBy(w, succeeded, stale, 0, row)
  {
  }

  // Deleting this blob flags this row.
  ghost predicate Flags(w: World, row: Row, blob: Blob) {
    row.blob == Some(blob.name) && w.fates(blob.name) == Deleted(true) && Markable(blob.name)
  }

  lemma FlagsSame(w: World, row: Row, other: Row, blob: Blob)
    requires row.blob == other.blob
    ensures Flags(w, row, blob) <==> Flags(w, other, blob)
  {
  }

  lemma FlagsOne(base: string, s: Store, w: World, blob: Blob)
    requires Truthful(s) && TwoSegments(blob.name)
    ensures var t := AfterDelete(base, s, blob.name, w.fates(blob.name));
      && |t.catalog| == |s.catalog|
      && forall k | 0 <= k < |s.catalog| ::
           && t.catalog[k].blob == s.catalog[k].blob
           && (t.catalog[k].deleted <==> s.catalog[k].deleted || Flags(w, s.catalog[k], blob))
  {
    DeletedExactly(base, s, blob.name, w.fates(blob.name));
    hide AfterDelete, TwoSegments, Truthful, Markable;
  }

  // The whole sweep, for any failures and any stop: a blob goes exactly when it was listed, reached, not
  // kept, and the call took effect; a row is flagged exactly when it was before, or its blob was listed,
  // reached, not kept, deleted and recorded, under a name the update accepts.
  lemma SweepExactly(base: string, s: Store, w: World, succeeded: set<string>, stale: seq<Blob>, t: Store)
    requires SweepStep(base, s, w, succeeded, stale, t) && Truthful(s)
    ensures forall name :: name in t.blobs <==>
      && name in s.blobs
      && !exists i: nat :: Tried(stale, succeeded, w.stopSweep, i) && stale[i].name == name
                      && w.fates(name) != DeleteFailed(false)
    ensures forall name | name in t.blobs :: t.blobs[name] == s.blobs[name]
    ensures |t.catalog| == |s.catalog|
    ensures forall k | 0 <= k < |s.catalog| ::
      && t.catalog[k].blob == s.catalog[k].blob
      && (t.catalog[k].deleted <==>
            s.catalog[k].deleted || FlaggedBy(w, succeeded, stale, w.stopSweep, s.catalog[k]))
  {
    hide Truthful, Swept, Spared, Newest, Kept, Flags;
    var newest, n := Newest(stale, |stale|), Least(|stale|, w.stopSweep);
    assert forall i: nat :: Tried(stale, succeeded, w.stopSweep, i) <==> Tried(stale, succeeded, n, i);
    SweptFlags(base, s, w, succeeded, stale, n);
    SweptBlobs(base, s, stale, newest, succeeded, w.fates, n);
    forall i: nat | i < |stale|
      ensures Spared(newest, succeeded, stale[i].name) <==> Kept(stale, succeeded, i)
    {
      SparedExactly(s.blobs, Cutoff(w), stale, succeeded, i);
    }
    forall name
      ensures name in RemovedBy(stale, newest, succeeded, w.fates, n) <==>
        exists i: nat :: Tried(stale, succeeded, n, i) && stale[i].name == name && w.fates(name) != DeleteFailed(false)
    {
      if i: nat :| Tried(stale, succeeded, n, i) && stale[i].name == name && w.fates(name) != DeleteFailed(false) {
        assert name in RemovedBy(stale, newest, succeeded, w.fates, n);
      }
      if name in RemovedBy(stale, newest, succeeded, w.fates, n) {
        var i: nat :| i < n && !Spared(newest, succeeded, stale[i].name) && Removes(w.fates(stale[i].name))
          && stale[i].name == name;
        assert Tried(stale, succeeded, n, i);
      }
    }
  }

  // A blob's name is that of no flagged row: it carries its capture time, and flagged blobs are old.
  ghost predicate NewName(s: Store, name: string) {
    forall i | 0 <= i < |s.catalog| :: s.catalog[i].deleted ==> s.catalog[i].blob != Some(name)
  }

  lemma BackupTruthful(s: Store, tenant: Tenant, a: Attempt)
    requires Truthful(s) && NewName(s, NameOf(tenant, a)) && '/' !in a.capturedAt
    ensures Truthful(AfterBackup(s, tenant, a))
  {
    hide BuildBlobName;
    BuiltSegments(tenant.id, a.sourcePath, a.capturedAt);
  }

  ghost predicate NewNames(s: Store, tenants: seq<Tenant>, attempts: nat -> Attempt, n: nat)
    requires n <= |tenants|
  {
    n == 0
    || (NewNames(s, tenants, attempts, n - 1) && '/' !in attempts(n - 1).capturedAt
        && NewName(AfterBackups(s, tenants, attempts, n - 1), NameOf(tenants[n - 1], attempts(n - 1))))
  }

  lemma {:induction false} FewerNewNames(s: Store, tenants: seq<Tenant>, attempts: nat -> Attempt, n: nat, m: nat)
    requires n <= m <= |tenants| && NewNames(s, tenants, attempts, m)
    ensures NewNames(s, tenants, attempts, n)
  {
    hide NewName, AfterBackups, NameOf;
    if n < m {
      FewerNewNames(s, tenants, attempts, n, m - 1);
    }
  }

  lemma {:induction false} BackupsTruthful(s: Store, tenants: seq<Tenant>, attempts: nat -> Attempt, n: nat)
    requires n <= |tenants| && Truthful(s) && NewNames(s, tenants, attempts, n)
    ensures Truthful(AfterBackups(s, tenants, attempts, n))
  {
    hide Truthful, NameOf, AfterBackup, NewName;
    if n > 0 {
      BackupsTruthful(s, tenants, attempts, n - 1);
      BackupTruthful(AfterBackups(s, tenants, attempts, n - 1), tenants[n - 1], attempts(n - 1));
    }
  }

  // Names that differ in tenant prefix or capture time differ: timestamps of one format keep their
  // digits, so dashing them is undone by the format.
  lemma {:induction false} DashedKeepsTime(a: string, b: string)
    requires |a| == |b| && Dashed(a) == Dashed(b)
    requires forall i | 0 <= i < |a| :: a[i] in ":.-" || b[i] in ":.-" ==> a[i] == b[i]
    ensures a == b
  {
    if a != "" {
      assert Dashed(a)[0] == Dashed(b)[0] && Dashed(a)[1..] == Dashed(b)[1..];
      forall i | 0 <= i < |a[1..]| && (a[1..][i] in ":.-" || b[1..][i] in ":.-") ensures a[1..][i] == b[1..][i] {
        assert a[1..][i] == a[i + 1] && b[1..][i] == b[i + 1];
      }
      DashedKeepsTime(a[1..], b[1..]);
      assert a[0] == b[0];
    }
  }

  // ------------------------------------------------------------------------------------------
  // Ticks.

  // The clocks: a backup that completes is stored after the tick began, and the sweep starts within
  // the retention of it.
  ghost predicate WellTimed(w: World) {
    && (forall k: nat :: FateOf(w.attempts(k)).Completed? ==> FateOf(w.attempts(k)).at >= w.start)
    && (w.days > 0 ==> w.now - w.start <= w.days * Schedule.DAY)
  }

  lemma {:induction false} BackupsHold(s: Store, tenants: seq<Tenant>, attempts: nat -> Attempt, n: nat, p: string)
    requires n <= |tenants| && Holds(s.blobs, p)
    ensures Holds(AfterBackups(s, tenants, attempts, n).blobs, p)
  {
    hide Prefix, NameOf;
    if n > 0 {
      BackupsHold(s, tenants, attempts, n - 1, p);
      var name :| name in AfterBackups(s, tenants, attempts, n - 1).blobs && Prefix(name) == p;
      assert name in AfterBackups(s, tenants, attempts, n).blobs;
    }
  }

  // Backups of one name overwrite each other, but only with a later time of the same tick.
  lemma {:induction false} BackupsFresh(s: Store, tenants: seq<Tenant>, w: World, n: nat, p: string)
    requires n <= |tenants| && forall k | 0 <= k < n :: '/' !in w.attempts(k).capturedAt
    requires WellTimed(w)
    requires forall k | 0 <= k < n :: Stored(FateOf(w.attempts(k))) ==> StoredAt(FateOf(w.attempts(k))) >= w.start
    requires p in Succeeded(tenants, w.attempts, n)
    ensures HoldsSince(AfterBackups(s, tenants, w.attempts, n).blobs, p, w.start)
  {
    hide Prefix, BuildBlobName, Sanitised;
    var before, after := AfterBackups(s, tenants, w.attempts, n - 1), AfterBackups(s, tenants, w.attempts, n);
    var tenant, a := tenants[n - 1], w.attempts(n - 1);
    BuiltSegments(tenant.id, a.sourcePath, a.capturedAt);
    if p in Succeeded(tenants, w.attempts, n - 1) {
      BackupsFresh(s, tenants, w, n - 1, p);
      var name :| name in before.blobs && Prefix(name) == p && before.blobs[name] >= w.start;
      assert name in after.blobs && after.blobs[name] >= w.start;
    } else {
      assert NameOf(tenant, a) in after.blobs && after.blobs[NameOf(tenant, a)] >= w.start;
    }
  }

  predicate Stored(fate: BackupFate) {
    fate.Completed? || (fate.Broken? && fate.stored.Some?)
  }

  function StoredAt(fate: BackupFate): int
    requires Stored(fate)
  {
    match fate case Completed(at) => at case Broken(stored, _) => stored.value
  }

  // What the environment owes a tick that starts from s.
  ghost predicate Sound(s: Store, w: World) {
    && WellTimed(w)
    && (forall k: nat :: '/' !in w.attempts(k).capturedAt)
    && (forall k: nat :: Stored(FateOf(w.attempts(k))) ==> StoredAt(FateOf(w.attempts(k))) >= w.start)
    && (w.tenants.Some? ==>
          NewNames(s, EligibleOf(w.tenants.value), w.attempts, |EligibleOf(w.tenants.value)|))
  }

  // No tick, whatever fails in it and wherever it stops, takes the last blob of a prefix, or flags a
  // row whose blob is there.
  lemma TickKeeps(base: string, s: Store, w: World, t: Store)
    requires TickStep(base, s, w, t) && Sound(s, w)
    ensures forall p | Holds(s.blobs, p) :: Holds(t.blobs, p)
    ensures Truthful(s) ==> Truthful(t)
  {
    hide Prefix, Swept, TwoSegments, Holds, Truthful, Stored, StoredAt, AfterBackups, Succeeded, Newest;
    if w.tenants.Some? {
      var tenants := EligibleOf(w.tenants.value);
      var n := Least(|tenants|, w.stopBackups);
      var backed := AfterBackups(s, tenants, w.attempts, n);
      if Truthful(s) {
        FewerNewNames(s, tenants, w.attempts, n, |tenants|);
        BackupsTruthful(s, tenants, w.attempts, n);
      }
      forall p | Holds(s.blobs, p) ensures Holds(backed.blobs, p) {
        BackupsHold(s, tenants, w.attempts, n, p);
      }
      if !(w.stopBackups < |tenants| || w.days <= 0 || w.listFails) {
        var succeeded := Succeeded(tenants, w.attempts, n);
        var stale: seq<Blob> :| SweepStep(base, backed, w, succeeded, stale, t);
        forall p | Holds(s.blobs, p) ensures Holds(t.blobs, p) {
          if p in succeeded {
            BackupsFresh(s, tenants, w, n, p);
          }
          SweepKeepsPrefix(base, backed, w, succeeded, stale, t, p);
        }
        if Truthful(s) {
          ListedBuilt(backed, Cutoff(w), stale);
          SweepTruthful(base, backed, stale, Newest(stale, |stale|), succeeded, w.fates, Least(|stale|, w.stopSweep));
        }
      }
    }
  }

  lemma ListedBuilt(s: Store, cutoff: int, stale: seq<Blob>)
    requires Truthful(s) && Lists(s.blobs, cutoff, stale)
    ensures forall i | 0 <= i < |stale| :: TwoSegments(stale[i].name)
  {
    hide TwoSegments;
  }

  // Whether anything but the clocks stands between a tick and the whole of its work.
  ghost predicate Complete(s: Store, w: World) {
    && w.tenants.Some? && w.days > 0 && !w.listFails && (forall n :: Removes(w.fates(n)))
    && var tenants := EligibleOf(w.tenants.value);
       w.stopBackups >= |tenants| && w.stopSweep >= |AfterBackups(s, tenants, w.attempts, |tenants|).blobs|
  }

  lemma CompleteTickSweeps(base: string, s: Store, w: World) returns (t: Store)
    requires Complete(s, w)
    ensures TickStep(base, s, w, t)
  {
    var tenants := EligibleOf(w.tenants.value);
    var backed := AfterBackups(s, tenants, w.attempts, |tenants|);
    var succeeded := Succeeded(tenants, w.attempts, |tenants|);
    hide AfterBackups, Succeeded, EligibleOf, Lists;
    var stale := ListingExists(backed.blobs, Cutoff(w));
    t := Swept(base, backed, stale, Newest(stale, |stale|), succeeded, w.fates, Least(|stale|, w.stopSweep));
    assert SweepStep(base, backed, w, succeeded, stale, t);
  }

  // What a tick without failures keeps: a prefix loses its last blob exactly when it was backed up, and
  // even that backup is older than the cutoff.
  lemma CompleteTickHolds(base: string, s: Store, w: World, t: Store, p: string)
    requires Complete(s, w) && TickStep(base, s, w, t)
    requires Holds(AfterBackups(s, EligibleOf(w.tenants.value), w.attempts, |EligibleOf(w.tenants.value)|).blobs, p)
    ensures var tenants := EligibleOf(w.tenants.value);
      var backed, succeeded := AfterBackups(s, tenants, w.attempts, |tenants|),
        Succeeded(tenants, w.attempts, |tenants|);
      Holds(t.blobs, p) <==> (p in succeeded ==> HoldsSince(backed.blobs, p, Cutoff(w)))
  {
    var tenants := EligibleOf(w.tenants.value);
    var backed := AfterBackups(s, tenants, w.attempts, |tenants|);
    var succeeded := Succeeded(tenants, w.attempts, |tenants|);
    hide AfterBackups, Succeeded, EligibleOf, Holds, HoldsSince;
    var stale: seq<Blob> :| SweepStep(base, backed, w, succeeded, stale, t);
    ListedSize(backed.blobs, Cutoff(w), stale);
    CompleteSweepHolds(base, backed, w, succeeded, stale, t, p);
  }

  // A tick that backs a tenant up as it starts keeps the tenant's last copy if and only if its sweep
  // starts within the retention: a tick that outlasts it deletes the backup it has just made.
  lemma LateTickLosesLast(base: string, s: Store, w: World, t: Store, tenant: Tenant)
    requires Complete(s, w) && TickStep(base, s, w, t) && EligibleOf(w.tenants.value) == [tenant]
    requires FateOf(w.attempts(0)) == Completed(w.start) && '/' !in w.attempts(0).capturedAt
    requires forall name | name in s.blobs && Prefix(name) == Sanitised(tenant.id) :: s.blobs[name] <= w.start
    ensures Holds(t.blobs, Sanitised(tenant.id)) <==> w.now - w.start <= w.days * Schedule.DAY
  {
    var p, a, name := Sanitised(tenant.id), w.attempts(0), NameOf(tenant, w.attempts(0));
    var backed := AfterBackups(s, [tenant], w.attempts, 1);
    assert backed == AfterBackup(s, tenant, a) by { assert AfterBackups(s, [tenant], w.attempts, 0) == s; }
    assert Succeeded([tenant], w.attempts, 1) == {p} by { assert Succeeded([tenant], w.attempts, 0) == {}; }
    BuiltSegments(tenant.id, a.sourcePath, a.capturedAt);
    hide Prefix, BuildBlobName, Sanitised, EligibleOf, Succeeded, AfterBackups, TickStep;
    assert name in backed.blobs && Prefix(name) == p && backed.blobs[name] == w.start;
    CompleteTickHolds(base, s, w, t, p);
  }

  // An operator's backup between two ticks.
  datatype Event = Ticked(w: World) | Manual(tenant: Tenant, attempt: Attempt)

  ghost predicate EventStep(base: string, s: Store, e: Event, t: Store) {
    match e
    case Ticked(w) => Sound(s, w) && TickStep(base, s, w, t)
    case Manual(tenant, a) =>
      '/' !in a.capturedAt && NewName(s, NameOf(tenant, a)) && t == AfterBackup(s, tenant, a)
  }

  ghost predicate Runs(base: string, trace: seq<Store>, events: seq<Event>) {
    && |trace| == |events| + 1
    && forall i | 0 <= i < |events| :: EventStep(base, trace[i], events[i], trace[i + 1])
  }

  lemma EventKeeps(base: string, s: Store, e: Event, t: Store)
    requires EventStep(base, s, e, t)
    ensures forall p | Holds(s.blobs, p) :: Holds(t.blobs, p)
    ensures Truthful(s) ==> Truthful(t)
  {
    hide TickStep, Sound, Truthful, Prefix, NameOf;
    match e {
      case Ticked(w) => TickKeeps(base, s, w, t);
      case Manual(tenant, a) =>
        if Truthful(s) {
          BackupTruthful(s, tenant, a);
        }
        forall p | Holds(s.blobs, p) ensures Holds(t.blobs, p) {
          var name :| name in s.blobs && Prefix(name) == p;
          assert name in t.blobs;
        }
    }
  }

  // Over any run, a prefix that ever held a blob still holds one at every later moment, and every
  // flagged row's blob is gone.
  lemma {:induction false} LastCopyNeverLost(base: string, trace: seq<Store>, events: seq<Event>, i: nat, j: nat)
    requires Runs(base, trace, events) && i <= j < |trace|
    ensures forall p | Holds(trace[i].blobs, p) :: Holds(trace[j].blobs, p)
    ensures Truthful(trace[i]) ==> Truthful(trace[j])
  {
    hide EventStep, Holds, Truthful;
    if i < j {
      LastCopyNeverLost(base, trace, events, i, j - 1);
      EventKeeps(base, trace[j - 1], events[j - 1], trace[j]);
    }
  }

  // ------------------------------------------------------------------------------------------
  // Rows that are never flagged.

  // The k-th row names a blob with a metacharacter and is not flagged.
  ghost predicate Unmarkable(s: Store, k: nat) {
    && k < |s.catalog| && s.catalog[k].blob.Some? && !s.catalog[k].deleted
    && Metacharacters(s.catalog[k].blob.value)
  }

  lemma DeleteLeaves(base: string, s: Store, name: string, fate: Fate, k: nat)
    requires Truthful(s) && TwoSegments(name) && Unmarkable(s, k)
    ensures var t := AfterDelete(base, s, name, fate);
      Unmarkable(t, k) && t.catalog[k] == s.catalog[k]
  {
    hide TwoSegments, MarkDeleted, Metacharacters;
    MarkedExactly(base, s.catalog, name);
  }

  lemma {:induction false} SweepLeaves(base: string, s: Store, stale: seq<Blob>, newest: map<string, Blob>,
                                       succeeded: set<string>, fates: string -> Fate, n: nat, k: nat)
    requires n <= |stale| && Truthful(s) && forall i | 0 <= i < |stale| :: TwoSegments(stale[i].name)
    requires Unmarkable(s, k)
    ensures var t := Swept(base, s, stale, newest, succeeded, fates, n);
      Unmarkable(t, k) && t.catalog[k] == s.catalog[k]
  {
    hide TwoSegments, Spared, AfterDelete, Truthful, Metacharacters;
    if n > 0 {
      SweepTruthful(base, s, stale, newest, succeeded, fates, n - 1);
      SweepLeaves(base, s, stale, newest, succeeded, fates, n - 1, k);
      var before := Swept(base, s, stale, newest, succeeded, fates, n - 1);
      DeleteLeaves(base, before, stale[n - 1].name, fates(stale[n - 1].name), k);
    }
  }

  lemma {:induction false} BackupsLeave(s: Store, tenants: seq<Tenant>, attempts: nat -> Attempt, n: nat)
    requires n <= |tenants|
    ensures s.catalog <= AfterBackups(s, tenants, attempts, n).catalog
  {
    hide NameOf, FateOf;
    if n > 0 {
      BackupsLeave(s, tenants, attempts, n - 1);
    }
  }

  lemma TickLeaves(base: string, s: Store, w: World, t: Store, k: nat)
    requires TickStep(base, s, w, t) && Sound(s, w) && Truthful(s) && Unmarkable(s, k)
    ensures Unmarkable(t, k) && t.catalog[k] == s.catalog[k]
  {
    hide Swept, TwoSegments, Truthful, Stored, StoredAt, AfterBackups, Succeeded, Newest, Metacharacters;
    if w.tenants.Some? {
      var tenants := EligibleOf(w.tenants.value);
      var n := Least(|tenants|, w.stopBackups);
      var backed := AfterBackups(s, tenants, w.attempts, n);
      FewerNewNames(s, tenants, w.attempts, n, |tenants|);
      BackupsTruthful(s, tenants, w.attempts, n);
      BackupsLeave(s, tenants, w.attempts, n);
      assert backed.catalog[k] == s.catalog[k];
      if !(w.stopBackups < |tenants| || w.days <= 0 || w.listFails) {
        var succeeded := Succeeded(tenants, w.attempts, n);
        var stale: seq<Blob> :| SweepStep(base, backed, w, succeeded, stale, t);
        ListedBuilt(backed, Cutoff(w), stale);
        SweepLeaves(base, backed, stale, Newest(stale, |stale|), succeeded, w.fates, Least(|stale|, w.stopSweep), k);
      }
    }
  }

  lemma EventLeaves(base: string, s: Store, e: Event, t: Store, k: nat)
    requires EventStep(base, s, e, t) && Truthful(s) && Unmarkable(s, k)
    ensures Unmarkable(t, k) && t.catalog[k] == s.catalog[k]
  {
    hide TickStep, Sound, Truthful, NameOf, Metacharacters;
    match e {
      case Ticked(w) => TickLeaves(base, s, w, t, k);
      case Manual(_, _) =>
    }
  }

  // Over any run the row of a backup whose blob name has a metacharacter stays unflagged, also after its
  // blob is deleted.
  lemma {:induction false} UnmarkableStays(base: string, trace: seq<Store>, events: seq<Event>, i: nat, j: nat, k: nat)
    requires Runs(base, trace, events) && i <= j < |trace| && Truthful(trace[i]) && Unmarkable(trace[i], k)
    ensures Unmarkable(trace[j], k) && trace[j].catalog[k] == trace[i].catalog[k]
  {
    hide EventStep, Truthful, Unmarkable, Holds;
    if i < j {
      UnmarkableStays(base, trace, events, i, j - 1, k);
      LastCopyNeverLost(base, trace, events, i, j - 1);
      EventLeaves(base, trace[j - 1], events[j - 1], trace[j], k);
    }
  }

  // So does every row of a tenant whose id has an underscore.
  lemma UnderscoredIdNeverFlagged(base: string, trace: seq<Store>, events: seq<Event>, i: nat, j: nat, k: nat,
                                  tenant: Tenant, a: Attempt)
    requires Runs(base, trace, events) && i <= j < |trace| && Truthful(trace[i]) && '_' in tenant.id
    requires k < |trace[i].catalog| && trace[i].catalog[k] == Row(Some(NameOf(tenant, a)), false)
    ensures k < |trace[j].catalog| && trace[j].catalog[k] == Row(Some(NameOf(tenant, a)), false)
  {
    hide Runs, Truthful;
    BuiltMetacharacters(tenant.id, a.sourcePath, a.capturedAt);
    hide BuildBlobName, Metacharacters;
    UnmarkableStays(base, trace, events, i, j, k);
  }
}
