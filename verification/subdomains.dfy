/**
 The reservation of tenant subdomains. Between any two statements of a reservation other
 reservations may run, for this tenant or for others.
 */
module Subdomains {
  import opened Outcomes
  import opened Identifiers

  // The subdomain column of the tenants table.
  type Column = map<string, Option<string>>

  datatype ReserveError =
    | TenantNotFound
    | InvalidPersisted(subdomain: string)
    | InvalidCandidate(candidate: string)
    | Exhausted

  ghost predicate Unique(c: Column) {
    forall a, b | a in c && b in c && c[a].Some? && c[a] == c[b] :: a == b
  }

  // No subdomain is taken back or changed, and no tenant goes.
  ghost predicate Grows(before: Column, after: Column) {
    forall t | t in before :: t in after && (before[t].Some? ==> after[t] == before[t])
  }

  predicate Taken(c: Column, subdomain: string) {
    exists t | t in c :: c[t] == Some(subdomain)
  }

  predicate TakenByOther(c: Column, tenantId: string, subdomain: string) {
    exists t | t in c :: t != tenantId && c[t] == Some(subdomain)
  }

  // One of these reservations is of this subdomain for this tenant.
  ghost predicate Wanted(rivals: seq<(string, string)>, tenantId: string, subdomain: Option<string>) {
    subdomain.Some? && (tenantId, subdomain.value) in rivals
  }

  const MAX_ATTEMPTS := 10

  class Registry {
    var column: Column

    constructor (column: Column)
      ensures this.column == column
    {
      this.column := column;
    }

    // Any reservations, one after the other, may complete here, under the unique constraint.
    method Interleave(rivals: seq<(string, string)>)
      requires Unique(column)
      modifies this
      ensures Unique(column) && Grows(old(column), column) && column.Keys == old(column).Keys
      ensures forall t | t in column :: column[t] == old(column)[t] || Wanted(rivals, t, column[t])
    {
      var i := 0;
      while i < |rivals|
        invariant 0 <= i <= |rivals|
        invariant Unique(column) && Grows(old(column), column) && column.Keys == old(column).Keys
        invariant forall t | t in column :: column[t] == old(column)[t] || Wanted(rivals, t, column[t])
      {
        var (tenant, subdomain) := rivals[i];
        if tenant in column && column[tenant].None? && !Taken(column, subdomain) {
          column := column[tenant := Some(subdomain)];
        }
        i := i + 1;
      }
    }

    // The transaction of one attempt: None when the unique constraint refuses the candidate.
    method Persist(tenantId: string, candidate: string) returns (r: Option<string>)
      requires Unique(column) && tenantId in column
      modifies this
      ensures Unique(column) && Grows(old(column), column) && column.Keys == old(column).Keys
      ensures r.Some? ==> column[tenantId] == r && (r == old(column)[tenantId] || r == Some(candidate))
      ensures r.None? <==> old(column)[tenantId].None? && Taken(old(column), candidate)
      ensures forall t | t in column && t != tenantId :: column[t] == old(column)[t]
      ensures r.None? ==> column == old(column)
    {
      if column[tenantId].Some? {
        return column[tenantId];
      }
      if Taken(column, candidate) {
        return None;
      }
      column := column[tenantId := Some(candidate)];
      return Some(candidate);
    }

    // One candidate: None when another tenant has it.
    method Attempt(tenantId: string, candidate: string, before: seq<(string, string)>, between: seq<(string, string)>)
      returns (r: Option<string>)
      requires Unique(column) && tenantId in column
      modifies this
      ensures Unique(column) && Grows(old(column), column) && column.Keys == old(column).Keys
      ensures r.Some? ==> column[tenantId] == r && !TakenByOther(column, tenantId, r.value)
      ensures column[tenantId] == old(column)[tenantId] || column[tenantId] == Some(candidate)
              || Wanted(before + between, tenantId, column[tenantId])
      ensures r.None? ==> TakenByOther(column, tenantId, candidate)
    {
      Interleave(before);
      var conflicting := TakenByOther(column, tenantId, candidate);
      ghost var read := column;
      Interleave(between);
      StaysTaken(read, column, tenantId);
      if conflicting {
        return None;
      }
      r := Persist(tenantId, candidate);
    }

    // A tenant keeps the subdomain it has; one that is reserved belongs to no other tenant, and no
    // tenant loses its own. before and between are the reservations that complete before an attempt
    // reads for conflicts, and between that read and its transaction.
    method ReserveTenantSubdomain(tenantId: string, createCandidate: nat -> string,
                                  before: nat -> seq<(string, string)>,
                                  between: nat -> seq<(string, string)>)
      returns (r: Result<string, ReserveError>)
      requires Unique(column)
      modifies this
      ensures Unique(column) && Grows(old(column), column) && column.Keys == old(column).Keys
      ensures r.Ok? ==> tenantId in column && column[tenantId] == Some(r.value) && ValidSubdomain(r.value)
      ensures r.Ok? ==> forall t | t in column && t != tenantId :: column[t] != Some(r.value)
      ensures r.Ok? ==>
        || old(column)[tenantId] == Some(r.value)
        || exists k :: 0 <= k < MAX_ATTEMPTS
             && (createCandidate(k) == r.value || (tenantId, r.value) in before(k) + between(k))
      ensures tenantId in old(column) && old(column)[tenantId].Some? ==>
        r == if ValidSubdomain(old(column)[tenantId].value) then Ok(old(column)[tenantId].value)
             else Err(InvalidPersisted(old(column)[tenantId].value))
      ensures (r.Err? && r.error.TenantNotFound?) <==> tenantId !in old(column)
      ensures r.Err? && r.error.InvalidPersisted? ==>
        tenantId in column && column[tenantId] == Some(r.error.subdomain) && !ValidSubdomain(r.error.subdomain)
      ensures r.Err? && r.error.InvalidCandidate? ==>
        exists k :: 0 <= k < MAX_ATTEMPTS && createCandidate(k) == r.error.candidate
          && !ValidSubdomain(r.error.candidate)
          && forall j | 0 <= j < k ::
            ValidSubdomain(createCandidate(j)) && TakenByOther(column, tenantId, createCandidate(j))
      ensures r.Err? && r.error.Exhausted? ==>
        forall k | 0 <= k < MAX_ATTEMPTS ::
          ValidSubdomain(createCandidate(k)) && TakenByOther(column, tenantId, createCandidate(k))
    {
      hide ValidSubdomain, Taken;
      if tenantId !in column {
        return Err(TenantNotFound);
      }
      if column[tenantId].Some? {
        var subdomain := column[tenantId].value;
        return if ValidSubdomain(subdomain) then Ok(subdomain) else Err(InvalidPersisted(subdomain));
      }
      var attempt := 0;
      while attempt < MAX_ATTEMPTS
        invariant 0 <= attempt <= MAX_ATTEMPTS
        invariant Unique(column) && Grows(old(column), column) && column.Keys == old(column).Keys
        invariant forall k | 0 <= k < attempt ::
          ValidSubdomain(createCandidate(k)) && TakenByOther(column, tenantId, createCandidate(k))
        invariant column[tenantId] == None
          || Offered(createCandidate, before, between, tenantId, column[tenantId], attempt)
      {
        var candidate := createCandidate(attempt);
        if !ValidSubdomain(candidate) {
          return Err(InvalidCandidate(candidate));
        }
        ghost var start := column;
        var persisted := Attempt(tenantId, candidate, before(attempt), between(attempt));
        StaysTaken(start, column, tenantId);
        attempt := attempt + 1;
        if persisted.Some? {
          if !ValidSubdomain(persisted.value) {
            return Err(InvalidPersisted(persisted.value));
          }
          return Ok(persisted.value);
        }
      }
      return Err(Exhausted);
    }
  }

  // The subdomains that are taken, and those that others have.
  lemma TakenExactly(c: Column, tenantId: string, subdomain: string)
    ensures Taken(c, subdomain) <==> Some(subdomain) in c.Values
    ensures TakenByOther(c, tenantId, subdomain) <==> Some(subdomain) in (c - {tenantId}).Values
  {
    var others := c - {tenantId};
    if Some(subdomain) in others.Values {
      var t :| t in others && others[t] == Some(subdomain);
      assert c[t] == Some(subdomain);
    }
    if TakenByOther(c, tenantId, subdomain) {
      var t :| t in c && t != tenantId && c[t] == Some(subdomain);
      assert others[t] == Some(subdomain);
    }
  }

  // One of the first n attempts, or a reservation beside it, is of this subdomain for this tenant.
  ghost predicate Offered(createCandidate: nat -> string, before: nat -> seq<(string, string)>,
                          between: nat -> seq<(string, string)>, tenantId: string, subdomain: Option<string>, n: nat)
  {
    exists k :: 0 <= k < n
      && (subdomain == Some(createCandidate(k)) || Wanted(before(k) + between(k), tenantId, subdomain))
  }

  lemma StaysTaken(before: Column, after: Column, tenantId: string)
    requires Grows(before, after)
    ensures forall subdomain | TakenByOther(before, tenantId, subdomain) :: TakenByOther(after, tenantId, subdomain)
  {
  }

  // Each tenant with a generated subdomain, reserved under this protocol, has a database of its own.
  lemma DatabasesApart(c: Column, lower: string -> string, sha256: string -> string, a: string, b: string,
                       digitsA: string, digitsB: string)
    requires Unique(c) && a in c && b in c && a != b && SixBytes(digitsA) && SixBytes(digitsB)
    requires c[a] == Some(Generated(digitsA)) && c[b] == Some(Generated(digitsB))
    ensures DatabaseName(lower, sha256, a, Generated(digitsA)) != DatabaseName(lower, sha256, b, Generated(digitsB))
  {
    hide DatabaseName;
    if digitsA != digitsB {
      GeneratedDatabasesDistinct(lower, sha256, a, digitsA, b, digitsB);
    }
  }
}
