/**
 Owner accounts: creation, and sign-in by a Keycloak identity, over the owner_accounts table. The
 transactions run one after another. norm is trim followed by toLowerCase, fold is the database's LOWER.
 */
module OwnerAccounts {
  import opened Outcomes

  datatype Account = Account(id: string, email: string, displayName: string, isSiteAdmin: bool, sub: Option<string>)

  // The accounts, and who owns the default campaign.
  datatype Store = Store(accounts: seq<Account>, defaultOwner: Option<string>)

  datatype Config = Config(norm: string -> string, fold: string -> string, siteAdmins: set<string>)

  datatype SignInError = LinkConflict(ownerId: string) | NotCreated(email: string) | DatabaseFailure

  function FindEmail(c: Config, rows: seq<Account>, email: string): (r: Option<nat>)
    ensures r.Some? ==> r.value < |rows| && c.fold(rows[r.value].email) == c.fold(email)
    ensures r.None? ==> forall i | 0 <= i < |rows| :: c.fold(rows[i].email) != c.fold(email)
  {
    FirstEmail(c, rows, email, 0)
  }

  function FirstEmail(c: Config, rows: seq<Account>, email: string, from: nat): (r: Option<nat>)
    requires from <= |rows|
    ensures r.Some? ==> from <= r.value < |rows| && c.fold(rows[r.value].email) == c.fold(email)
    ensures r.None? ==> forall i | from <= i < |rows| :: c.fold(rows[i].email) != c.fold(email)
    decreases |rows| - from
  {
    if from == |rows| then None
    else if c.fold(rows[from].email) == c.fold(email) then Some(from)
    else FirstEmail(c, rows, email, from + 1)
  }

  function FindSub(rows: seq<Account>, sub: string): (r: Option<nat>)
    ensures r.Some? ==> r.value < |rows| && rows[r.value].sub == Some(sub)
    ensures r.None? ==> forall i | 0 <= i < |rows| :: rows[i].sub != Some(sub)
  {
    FirstSub(rows, sub, 0)
  }

  function FirstSub(rows: seq<Account>, sub: string, from: nat): (r: Option<nat>)
    requires from <= |rows|
    ensures r.Some? ==> from <= r.value < |rows| && rows[r.value].sub == Some(sub)
    ensures r.None? ==> forall i | from <= i < |rows| :: rows[i].sub != Some(sub)
    decreases |rows| - from
  {
    if from == |rows| then None else if rows[from].sub == Some(sub) then Some(from) else FirstSub(rows, sub, from + 1)
  }

  // UPDATE owner_accounts ... WHERE id = account.id
  function Updated(rows: seq<Account>, account: Account): (r: seq<Account>)
    ensures |r| == |rows|
    ensures forall i | 0 <= i < |rows| :: r[i] == if rows[i].id == account.id then account else rows[i]
  {
    if rows == [] then []
    else [if rows[0].id == account.id then account else rows[0]] + Updated(rows[1..], account)
  }

  // ------------------------------------------------------------------------------------------
  // The transactions as functions.

  function Create(c: Config, s: Store, email: string, displayName: string, id: string): (Option<Account>, Store) {
    var normalized := c.norm(email);
    if FindEmail(c, s.accounts, normalized).Some? then (None, s)
    else
      var owner := Account(id, normalized, displayName, normalized in c.siteAdmins, None);
      (Some(owner), Store(s.accounts + [owner], if s.defaultOwner.None? then Some(id) else s.defaultOwner))
  }

  function ResolveEmail(c: Config, s: Store, owner: Account, normalized: string): string {
    var current := c.norm(owner.email);
    if current == normalized then current
    else
      var existing := FindEmail(c, s.accounts, normalized);
      if existing.Some? && s.accounts[existing.value].id != owner.id then current else normalized
  }

  // fails says whether the update of the account fails. An account created on the way was committed
  // by its own transaction and stays.
  function SignIn(c: Config, s: Store, sub: string, email: string, displayName: string, id: string, fails: bool)
    : (Result<Account, SignInError>, Store)
  {
    var normalized := c.norm(email);
    var bySub := FindSub(s.accounts, sub);
    if bySub.Some? then
      var owner := s.accounts[bySub.value];
      var persisted := ResolveEmail(c, s, owner, normalized);
      var updated := owner.(email := persisted, displayName := displayName, isSiteAdmin := persisted in c.siteAdmins);
      if fails then (Err(DatabaseFailure), s)
      else (Ok(updated), s.(accounts := Updated(s.accounts, updated.(sub := Some(sub)))))
    else
      var byEmail := FindEmail(c, s.accounts, normalized);
      if byEmail.Some? then
        var owner := s.accounts[byEmail.value];
        if owner.sub.Some? && owner.sub.value != sub then (Err(LinkConflict(owner.id)), s)
        else
          var updated := owner.(displayName := displayName, isSiteAdmin := normalized in c.siteAdmins,
            sub := Some(sub));
          if fails then (Err(DatabaseFailure), s)
          else (Ok(updated), s.(accounts := Updated(s.accounts, updated.(email := normalized))))
      else
        var (created, t) := Create(c, s, normalized, displayName, id);
        if created.None? then (Err(NotCreated(normalized)), t)
        else if fails then (Err(DatabaseFailure), t)
        else
          var updated := created.value.(email := normalized, sub := Some(sub));
          (Ok(created.value.(sub := Some(sub))), t.(accounts := Updated(t.accounts, updated)))
  }

  // ------------------------------------------------------------------------------------------
  // The transactions as the source runs them.

  class OwnerAccountDomain {
    const config: Config
    var accounts: seq<Account>
    var defaultOwner: Option<string>

    function State(): Store reads this {
      Store(accounts, defaultOwner)
    }

    constructor (config: Config)
      ensures this.config == config && State() == Store([], None)
    {
      this.config, accounts, defaultOwner := config, [], None;
    }

    method CreateOwnerAccount(email: string, displayName: string, id: string) returns (created: Option<Account>)
      modifies this
      ensures (created, State()) == Create(config, old(State()), email, displayName, id)
    {
      var normalized := config.norm(email);
      var existing := FindEmail(config, accounts, normalized);
      if existing.Some? {
        return None;
      }
      var owner := Account(id, normalized, displayName, normalized in config.siteAdmins, None);
      accounts := accounts + [owner];
      if defaultOwner.None? {
        defaultOwner := Some(id);
      }
      return Some(owner);
    }

    method FindOrCreateOwner(sub: string, email: string, displayName: string, id: string, fails: bool)
      returns (r: Result<Account, SignInError>)
      modifies this
      ensures (r, State()) == SignIn(config, old(State()), sub, email, displayName, id, fails)
    {
      var normalized := config.norm(email);
      var bySub := FindSub(accounts, sub);
      if bySub.Some? {
        var owner := accounts[bySub.value];
        var persisted := ResolveEmail(config, State(), owner, normalized);
        var updated := owner.(email := persisted, displayName := displayName,
          isSiteAdmin := persisted in config.siteAdmins);
        if fails {
          return Err(DatabaseFailure);
        }
        accounts := Updated(accounts, updated.(sub := Some(sub)));
        return Ok(updated);
      }
      var byEmail := FindEmail(config, accounts, normalized);
      if byEmail.Some? {
        var owner := accounts[byEmail.value];
        if owner.sub.Some? && owner.sub.value != sub {
          return Err(LinkConflict(owner.id));
        }
        var updated :=
          owner.(displayName := displayName, isSiteAdmin := normalized in config.siteAdmins, sub := Some(sub));
        if fails {
          return Err(DatabaseFailure);
        }
        accounts := Updated(accounts, updated.(email := normalized));
        return Ok(updated);
      }
      var created := CreateOwnerAccount(normalized, displayName, id);
      if created.None? {
        return Err(NotCreated(normalized));
      }
      if fails {
        return Err(DatabaseFailure);
      }
      accounts := Updated(accounts, created.value.(email := normalized, sub := Some(sub)));
      return Ok(created.value.(sub := Some(sub)));
    }
  }

  // ------------------------------------------------------------------------------------------
  // What every run keeps.

  datatype Op =
    | Creation(email: string, displayName: string, id: string)
    | SigningIn(sub: string, email: string, displayName: string, id: string, fails: bool)

  function After(c: Config, s: Store, op: Op): Store {
    match op
    case Creation(email, displayName, id) => Create(c, s, email, displayName, id).1
    case SigningIn(sub, email, displayName, id, fails) => SignIn(c, s, sub, email, displayName, id, fails).1
  }

  ghost predicate Runs(c: Config, trace: seq<Store>, ops: seq<Op>) {
    && |trace| == |ops| + 1 && trace[0] == Store([], None)
    && forall i | 0 <= i < |ops| :: trace[i + 1] == After(c, trace[i], ops[i]) && FreshId(trace[i], ops[i].id)
  }

  ghost predicate FreshId(s: Store, id: string) {
    forall i | 0 <= i < |s.accounts| :: s.accounts[i].id != id
  }

  ghost predicate Sane(c: Config) {
    forall e :: c.norm(c.norm(e)) == c.norm(e)
  }

  // No two rows agree in id, in folded email or in subject: the unique indexes are never violated.
  ghost predicate Unique(c: Config, rows: seq<Account>) {
    forall i, j | 0 <= i < j < |rows| ::
      && rows[i].id != rows[j].id
      && c.fold(rows[i].email) != c.fold(rows[j].email)
      && (rows[i].sub.Some? ==> rows[i].sub != rows[j].sub)
  }

  // Emails are normalised, and the configured ones, and no others, are those of site admins.
  ghost predicate Normal(c: Config, rows: seq<Account>) {
    forall i | 0 <= i < |rows| ::
      c.norm(rows[i].email) == rows[i].email && (rows[i].isSiteAdmin <==> rows[i].email in c.siteAdmins)
  }

  ghost predicate HasId(rows: seq<Account>, id: string) {
    exists i :: 0 <= i < |rows| && rows[i].id == id
  }

  ghost predicate Inv(c: Config, s: Store) {
    && Unique(c, s.accounts) && Normal(c, s.accounts)
    && (s.defaultOwner.Some? <==> s.accounts != [])
    && (s.defaultOwner.Some? ==> HasId(s.accounts, s.defaultOwner.value))
  }

  lemma UpdatedAt(c: Config, rows: seq<Account>, k: nat, account: Account)
    requires Unique(c, rows) && k < |rows| && account.id == rows[k].id
    ensures Updated(rows, account) == rows[k := account]
  {
  }

  lemma UniqueAfter(c: Config, rows: seq<Account>, k: nat, account: Account)
    requires Unique(c, rows) && k < |rows| && account.id == rows[k].id
    requires forall i | 0 <= i < |rows| && i != k :: c.fold(rows[i].email) != c.fold(account.email)
    requires account.sub.Some? ==> forall i | 0 <= i < |rows| && i != k :: rows[i].sub != account.sub
    ensures Unique(c, rows[k := account])
  {
    var after := rows[k := account];
    forall i, j | 0 <= i < j < |after|
      ensures after[i].id != after[j].id && c.fold(after[i].email) != c.fold(after[j].email)
      ensures after[i].sub.Some? ==> after[i].sub != after[j].sub
    {
      assert i != k ==> after[i] == rows[i];
      assert j != k ==> after[j] == rows[j];
    }
  }

  // Writing a row whose email and subject no other row has keeps the rows unique.
  lemma UpdateKeeps(c: Config, s: Store, k: nat, account: Account)
    requires Inv(c, s) && k < |s.accounts| && account.id == s.accounts[k].id && Normal(c, [account])
    requires forall i | 0 <= i < |s.accounts| && i != k :: c.fold(s.accounts[i].email) != c.fold(account.email)
    requires account.sub.Some? ==> forall i | 0 <= i < |s.accounts| && i != k :: s.accounts[i].sub != account.sub
    ensures Inv(c, s.(accounts := Updated(s.accounts, account)))
  {
    UpdatedAt(c, s.accounts, k, account);
    UniqueAfter(c, s.accounts, k, account);
    IdsStay(s.accounts, k, account);
    NormalStays(c, s.accounts, k, account);
    hide Unique, Updated, Normal, HasId;
  }

  lemma IdsStay(rows: seq<Account>, k: nat, account: Account)
    requires k < |rows| && account.id == rows[k].id
    ensures forall id | HasId(rows, id) :: HasId(rows[k := account], id)
  {
    forall id | HasId(rows, id) ensures HasId(rows[k := account], id) {
      var j :| 0 <= j < |rows| && rows[j].id == id;
      assert rows[k := account][j].id == id;
    }
  }

  lemma NormalStays(c: Config, rows: seq<Account>, k: nat, account: Account)
    requires Normal(c, rows) && k < |rows| && Normal(c, [account])
    ensures Normal(c, rows[k := account])
  {
    assert [account][0] == account;
  }

  lemma CreateKeeps(c: Config, s: Store, email: string, displayName: string, id: string)
    requires Inv(c, s) && Sane(c) && FreshId(s, id)
    ensures var (created, t) := Create(c, s, email, displayName, id);
      && Inv(c, t) && s.accounts <= t.accounts
      && (created.Some? ==> t.accounts == s.accounts + [created.value] && created.value.sub.None?)
      && (created.None? <==> exists i :: 0 <= i < |s.accounts| && c.fold(s.accounts[i].email) == c.fold(c.norm(email)))
  {
    var (created, t) := Create(c, s, email, displayName, id);
    if created.Some? {
      assert t.accounts[|s.accounts|].id == id;
      if s.defaultOwner.Some? {
        var k :| 0 <= k < |s.accounts| && s.accounts[k].id == s.defaultOwner.value;
        assert t.accounts[k].id == t.defaultOwner.value;
      }
    }
  }

  // The email that a bound identity keeps or takes belongs to no other account.
  lemma ResolvedEmail(c: Config, s: Store, k: nat, email: string)
    requires Inv(c, s) && Sane(c) && k < |s.accounts|
    ensures var persisted := ResolveEmail(c, s, s.accounts[k], c.norm(email));
      && c.norm(persisted) == persisted
      && (persisted == s.accounts[k].email || persisted == c.norm(email))
      && forall i | 0 <= i < |s.accounts| && i != k :: c.fold(s.accounts[i].email) != c.fold(persisted)
  {
  }

  lemma SignInKeeps(c: Config, s: Store, sub: string, email: string, displayName: string, id: string, fails: bool)
    requires Inv(c, s) && Sane(c) && FreshId(s, id)
    ensures Inv(c, SignIn(c, s, sub, email, displayName, id, fails).1)
  {
    var normalized := c.norm(email);
    var bySub, byEmail := FindSub(s.accounts, sub), FindEmail(c, s.accounts, normalized);
    if bySub.Some? {
      ResolvedEmail(c, s, bySub.value, email);
      if !fails {
        var owner, persisted := s.accounts[bySub.value], ResolveEmail(c, s, s.accounts[bySub.value], normalized);
        UpdateKeeps(c, s, bySub.value, owner.(email := persisted, displayName := displayName,
                                              isSiteAdmin := persisted in c.siteAdmins, sub := Some(sub)));
      }
    } else if byEmail.Some? {
      var owner := s.accounts[byEmail.value];
      if !fails && !(owner.sub.Some? && owner.sub.value != sub) {
        UpdateKeeps(c, s, byEmail.value, owner.(email := normalized, displayName := displayName,
                                                isSiteAdmin := normalized in c.siteAdmins, sub := Some(sub)));
      }
    } else {
      CreateKeeps(c, s, normalized, displayName, id);
      var (created, t) := Create(c, s, normalized, displayName, id);
      if created.Some? && !fails {
        UpdateKeeps(c, t, |s.accounts|, created.value.(email := normalized, sub := Some(sub)));
      }
    }
  }

  lemma {:induction false} AlwaysUnique(c: Config, trace: seq<Store>, ops: seq<Op>, i: nat)
    requires Runs(c, trace, ops) && Sane(c) && i < |trace|
    ensures Inv(c, trace[i])
  {
    hide Inv, FreshId, Sane, Create, SignIn;
    if i > 0 {
      AlwaysUnique(c, trace, ops, i - 1);
      var s, op := trace[i - 1], ops[i - 1];
      match op {
        case Creation(email, displayName, id) => CreateKeeps(c, s, email, displayName, id);
        case SigningIn(sub, email, displayName, id, fails) => SignInKeeps(c, s, sub, email, displayName, id, fails);
      }
    } else {
      EmptyInv(c);
    }
  }

  lemma EmptyInv(c: Config)
    ensures Inv(c, Store([], None))
  {
  }

  ghost predicate Bound(s: Store, sub: string, id: string) {
    exists i :: 0 <= i < |s.accounts| && s.accounts[i].sub == Some(sub) && s.accounts[i].id == id
  }

  // No step takes an identity away from its account.
  lemma StepKeepsBinding(c: Config, s: Store, op: Op, sub: string, id: string)
    requires Inv(c, s) && Sane(c) && FreshId(s, op.id) && Bound(s, sub, id)
    ensures Bound(After(c, s, op), sub, id)
  {
    var k :| 0 <= k < |s.accounts| && s.accounts[k].sub == Some(sub) && s.accounts[k].id == id;
    var t := After(c, s, op);
    assert t.accounts[k].sub == Some(sub) && t.accounts[k].id == id by {
      RowKeepsBinding(c, s, op, k);
    }
  }

  lemma RowKeepsBinding(c: Config, s: Store, op: Op, k: nat)
    requires Inv(c, s) && FreshId(s, op.id) && k < |s.accounts| && s.accounts[k].sub.Some?
    ensures var t := After(c, s, op);
      k < |t.accounts| && t.accounts[k].sub == s.accounts[k].sub && t.accounts[k].id == s.accounts[k].id
  {
    if op.SigningIn? {
      SignInRows(c, s, op.sub, op.email, op.displayName, op.id, op.fails, k);
    }
  }

  // What a sign-in does to an account that is bound.
  lemma SignInRows(c: Config, s: Store, sub: string, email: string, displayName: string, id: string, fails: bool,
                   k: nat)
    requires Unique(c, s.accounts) && k < |s.accounts| && s.accounts[k].id != id && s.accounts[k].sub.Some?
    ensures var t := SignIn(c, s, sub, email, displayName, id, fails).1;
      k < |t.accounts| && t.accounts[k].sub == s.accounts[k].sub && t.accounts[k].id == s.accounts[k].id
  {
    hide ResolveEmail;
    var bySub, byEmail := FindSub(s.accounts, sub), FindEmail(c, s.accounts, c.norm(email));
    assert bySub.Some? && s.accounts[bySub.value].id == s.accounts[k].id ==> bySub.value == k;
    assert byEmail.Some? && s.accounts[byEmail.value].id == s.accounts[k].id ==> byEmail.value == k;
    hide Unique, FindSub, FindEmail;
  }

  // Once bound, an identity resolves to the same account for ever, also when its email has changed to
  // one that another account has: then the account keeps its email.
  lemma {:induction false} BoundForEver(c: Config, trace: seq<Store>, ops: seq<Op>, i: nat, j: nat, sub: string,
                                        id: string)
    requires Runs(c, trace, ops) && Sane(c) && i <= j < |trace| && Bound(trace[i], sub, id)
    ensures Bound(trace[j], sub, id)
    ensures forall email, displayName, newId ::
      var r := SignIn(c, trace[j], sub, email, displayName, newId, false).0;
      r.Ok? && r.value.id == id && r.value.sub == Some(sub)
  {
    hide SignIn, Bound, FreshId;
    if i < j {
      BoundForEver(c, trace, ops, i, j - 1, sub, id);
      AlwaysUnique(c, trace, ops, j - 1);
      StepKeepsBinding(c, trace[j - 1], ops[j - 1], sub, id);
    }
    AlwaysUnique(c, trace, ops, j);
    forall email, displayName, newId
      ensures var r := SignIn(c, trace[j], sub, email, displayName, newId, false).0;
        r.Ok? && r.value.id == id && r.value.sub == Some(sub)
    {
      BoundSignsIn(c, trace[j], sub, id, email, displayName, newId);
    }
  }

  lemma BoundSignsIn(c: Config, s: Store, sub: string, id: string, email: string, displayName: string, newId: string)
    requires Inv(c, s) && Bound(s, sub, id)
    ensures var r := SignIn(c, s, sub, email, displayName, newId, false).0;
      r.Ok? && r.value.id == id && r.value.sub == Some(sub)
  {
  }

  ghost predicate Has(c: Config, rows: seq<Account>, email: string) {
    exists i :: 0 <= i < |rows| && c.fold(rows[i].email) == c.fold(email)
  }

  // A creation, by the accounts alone: nothing when the folded email is taken; else one more account, which
  // owns the default campaign if nobody does.
  lemma CreateExactly(c: Config, s: Store, email: string, displayName: string, id: string)
    ensures var (created, t) := Create(c, s, email, displayName, id);
      var account := Account(id, c.norm(email), displayName, c.norm(email) in c.siteAdmins, None);
      && (created.None? <==> Has(c, s.accounts, c.norm(email)))
      && (created.None? ==> t == s)
      && (created.Some? ==>
            && created.value == account && t.accounts == s.accounts + [account]
            && t.defaultOwner == (match s.defaultOwner case None => Some(id) case Some(_) => s.defaultOwner))
  {
  }

  // A sign-in of a bound identity: its account gets the name given and, unless another account has it, the
  // email given; it is a site admin exactly if that email is configured. No other account changes.
  lemma BoundExactly(c: Config, s: Store, k: nat, email: string, displayName: string, id: string)
    requires Inv(c, s) && k < |s.accounts| && s.accounts[k].sub.Some?
    ensures var was := s.accounts[k];
      var (r, t) := SignIn(c, s, was.sub.value, email, displayName, id, false);
      var taken := exists i :: 0 <= i < |s.accounts| && i != k && c.fold(s.accounts[i].email) == c.fold(c.norm(email));
      var kept := if taken then was.email else c.norm(email);
      var now := Account(was.id, kept, displayName, kept in c.siteAdmins, was.sub);
      r == Ok(now) && t == Store(s.accounts[k := now], s.defaultOwner)
  {
    hide SignIn, Updated;
    var was := s.accounts[k];
    assert FindSub(s.accounts, was.sub.value) == Some(k);
    KeptExactly(c, s, k, email);
    var kept := ResolveEmail(c, s, was, c.norm(email));
    UpdatedAt(c, s.accounts, k, Account(was.id, kept, displayName, kept in c.siteAdmins, was.sub));
    SignsIn(c, s, k, email, displayName, id);
  }

  lemma KeptExactly(c: Config, s: Store, k: nat, email: string)
    requires Inv(c, s) && k < |s.accounts|
    ensures ResolveEmail(c, s, s.accounts[k], c.norm(email))
         == if exists i :: 0 <= i < |s.accounts| && i != k && c.fold(s.accounts[i].email) == c.fold(c.norm(email))
            then s.accounts[k].email else c.norm(email)
  {
    hide HasId;
  }

  lemma SignsIn(c: Config, s: Store, k: nat, email: string, displayName: string, id: string)
    requires k < |s.accounts| && s.accounts[k].sub.Some? && FindSub(s.accounts, s.accounts[k].sub.value) == Some(k)
    ensures var was := s.accounts[k];
      var kept := ResolveEmail(c, s, was, c.norm(email));
      var now := Account(was.id, kept, displayName, kept in c.siteAdmins, was.sub);
      SignIn(c, s, was.sub.value, email, displayName, id, false)
        == (Ok(now), s.(accounts := Updated(s.accounts, now)))
  {
    hide ResolveEmail, Updated, FindSub;
  }

  ghost predicate Unknown(s: Store, sub: string) {
    forall i | 0 <= i < |s.accounts| :: s.accounts[i].sub != Some(sub)
  }

  // A sign-in of a new identity is bound to the account that has its email and no identity yet; the answer
  // still has the email as it was stored.
  lemma LinkedExactly(c: Config, s: Store, k: nat, sub: string, email: string, displayName: string, id: string)
    requires Inv(c, s) && Unknown(s, sub) && k < |s.accounts| && s.accounts[k].sub.None?
    requires c.fold(s.accounts[k].email) == c.fold(c.norm(email))
    ensures var normalized, was := c.norm(email), s.accounts[k];
      var now := Account(was.id, normalized, displayName, normalized in c.siteAdmins, Some(sub));
      SignIn(c, s, sub, email, displayName, id, false)
        == (Ok(now.(email := was.email)), Store(s.accounts[k := now], s.defaultOwner))
  {
    var normalized, was := c.norm(email), s.accounts[k];
    assert FindEmail(c, s.accounts, normalized) == Some(k) && FindSub(s.accounts, sub).None?;
    UpdatedAt(c, s.accounts, k, Account(was.id, normalized, displayName, normalized in c.siteAdmins, Some(sub)));
    hide FindSub, FindEmail, ResolveEmail, Updated, Create, Unique;
  }

  // ... and to a new account when no account has its email.
  lemma NewExactly(c: Config, s: Store, sub: string, email: string, displayName: string, id: string)
    requires Inv(c, s) && Sane(c) && FreshId(s, id) && Unknown(s, sub) && !Has(c, s.accounts, c.norm(email))
    ensures var normalized := c.norm(email);
      var now := Account(id, normalized, displayName, normalized in c.siteAdmins, Some(sub));
      SignIn(c, s, sub, email, displayName, id, false)
        == (Ok(now), Store(s.accounts + [now],
                           match s.defaultOwner case None => Some(id) case Some(_) => s.defaultOwner))
  {
    var normalized := c.norm(email);
    CreateKeeps(c, s, normalized, displayName, id);
    CreateExactly(c, s, normalized, displayName, id);
    var (created, u) := Create(c, s, normalized, displayName, id);
    var now := Account(id, normalized, displayName, normalized in c.siteAdmins, Some(sub));
    UpdatedAt(c, u.accounts, |s.accounts|, now);
    assert u.accounts[|s.accounts| := now] == s.accounts + [now];
    assert FindEmail(c, s.accounts, normalized).None? && FindSub(s.accounts, sub).None?;
    hide FindSub, FindEmail, ResolveEmail, Updated, Create, Unique, Inv;
  }

  // A sign-in is refused exactly when its identity is unbound and its email belongs to an account
  // bound to another; it then changes nothing.
  lemma ConflictExactly(c: Config, s: Store, sub: string, email: string, displayName: string, id: string, fails: bool)
    requires Inv(c, s)
    ensures var (r, t) := SignIn(c, s, sub, email, displayName, id, fails);
      && ((r.Err? && r.error.LinkConflict?) <==>
            && (forall i | 0 <= i < |s.accounts| :: s.accounts[i].sub != Some(sub))
            && exists i ::
                 && 0 <= i < |s.accounts| && c.fold(s.accounts[i].email) == c.fold(c.norm(email))
                 && s.accounts[i].sub.Some?)
      && (r.Err? && r.error.LinkConflict? ==> t == s)
  {
    var byEmail := FindEmail(c, s.accounts, c.norm(email));
    if byEmail.Some? {
      assert forall i | 0 <= i < |s.accounts| && c.fold(s.accounts[i].email) == c.fold(c.norm(email)) ::
        i == byEmail.value;
    }
  }

  // A sign-in whose last statement fails leaves at most an unbound account behind, and the next
  // sign-in with the same email binds that one.
  lemma FailedSignInResumes(c: Config, s: Store, sub: string, email: string, displayName: string, id: string,
                            nextId: string)
    requires Inv(c, s) && Sane(c) && FreshId(s, id)
    ensures var (r, t) := SignIn(c, s, sub, email, displayName, id, true);
      && r.Err? && s.accounts <= t.accounts
      && (t != s ==>
            && |t.accounts| == |s.accounts| + 1 && t.accounts[|s.accounts|].sub.None?
            && var again := SignIn(c, t, sub, email, displayName, nextId, false).0;
               again.Ok? && again.value.id == id)
  {
    CreateKeeps(c, s, c.norm(email), displayName, id);
    var (r, t) := SignIn(c, s, sub, email, displayName, id, true);
    if t != s {
      var again := FindEmail(c, t.accounts, c.norm(email));
      assert c.fold(t.accounts[|s.accounts|].email) == c.fold(c.norm(email));
    }
  }
}
