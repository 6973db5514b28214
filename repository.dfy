/**
 * repository/AccountRepository.java: the account table behind the JpaRepository
 * interface, as a map from id to stored row plus the order rows were inserted in
 * (the order the model's lookups return them in). Rows are values; an entity object handed to
 * the service is a copy, and its changes reach the table only through Save.
 */
module Repository {
  import opened Wrappers
  import opened Domain
  import opened Constraints
  import opened Exceptions
  import Entity

  predicate Distinct(ids: seq<Uuid>)
  {
    forall i, j :: 0 <= i < j < |ids| ==> ids[i] != ids[j]
  }

  /** The ids with one of them taken out, order kept. */
  function Without(ids: seq<Uuid>, x: Uuid): (r: seq<Uuid>)
    ensures forall y :: y in r <==> y in ids && y != x
    ensures Distinct(ids) ==> Distinct(r)
  {
    if ids == [] then []
    else if ids[0] == x then Without(ids[1..], x)
    else
      var rest := Without(ids[1..], x);
      assert Distinct(ids) ==> ids[0] !in ids[1..];
      [ids[0]] + rest
  }

  /** The rows stored under the given ids, in the ids' order. */
  function Lookup(ids: seq<Uuid>, rows: map<Uuid, Entity.AccountState>): (r: seq<Entity.AccountState>)
    requires forall id :: id in ids ==> id in rows
    ensures |r| == |ids|
    ensures forall i :: 0 <= i < |ids| ==> r[i] == rows[ids[i]]
  {
    if ids == [] then [] else [rows[ids[0]]] + Lookup(ids[1..], rows)
  }

  /** The accounts of one client, in the order given. */
  function OwnedBy(accounts: seq<Entity.AccountState>, clientId: Uuid): (r: seq<Entity.AccountState>)
    ensures forall a :: a in r <==> a in accounts && a.clientId == Some(clientId)
    ensures forall a :: multiset(r)[a] == if a.clientId == Some(clientId) then multiset(accounts)[a] else 0
    ensures |r| <= |accounts|
  {
    if accounts == [] then []
    else
      assert accounts == [accounts[0]] + accounts[1..];
      (if accounts[0].clientId == Some(clientId) then [accounts[0]] else []) + OwnedBy(accounts[1..], clientId)
  }

  /** Lookup over every stored id yields every stored row and nothing else. */
  lemma {:induction false} LookupCoversRows(ids: seq<Uuid>, rows: map<Uuid, Entity.AccountState>)
    requires forall id :: id in ids <==> id in rows
    ensures forall a :: a in Lookup(ids, rows) <==> a in rows.Values
  {
    var r := Lookup(ids, rows);
    forall a | a in rows.Values
      ensures a in r
    {
      var k :| k in rows && rows[k] == a;
      var i :| 0 <= i < |ids| && ids[i] == k;
      assert r[i] == a;
    }
  }

  /** Rows stored under their own, distinct ids are looked up once each. */
  lemma {:induction false} LookupOnce(ids: seq<Uuid>, rows: map<Uuid, Entity.AccountState>)
    requires Distinct(ids)
    requires forall id :: id in ids ==> id in rows && rows[id].id == Some(id)
    ensures forall a :: a in Lookup(ids, rows) ==> multiset(Lookup(ids, rows))[a] == 1
  {
    if ids != [] {
      var rest := Lookup(ids[1..], rows);
      assert Distinct(ids[1..]) by {
        forall i, j | 0 <= i < j < |ids[1..]|
          ensures ids[1..][i] != ids[1..][j]
        {
          assert ids[1..][i] == ids[i + 1] && ids[1..][j] == ids[j + 1];
        }
      }
      LookupOnce(ids[1..], rows);
      assert rows[ids[0]] !in rest by {
        forall i | 0 <= i < |rest|
          ensures rest[i] != rows[ids[0]]
        {
          assert rest[i].id == Some(ids[i + 1]) && ids[i + 1] != ids[0];
        }
      }
      assert Lookup(ids, rows) == [rows[ids[0]]] + rest;
    }
  }

  /**
   * The failure PostgreSQL reports when a deposit has more digits before the
   * point than numeric(10, 2) allows; the text Spring wraps it in is not modelled.
   */
  const NUMERIC_FIELD_OVERFLOW := "numeric field overflow"

  class AccountRepository {
    var rows: map<Uuid, Entity.AccountState>
    var order: seq<Uuid>

    /** Every stored row sits under its own id, is in the table's form, and is listed once in order. */
    ghost predicate Valid()
      reads this
    {
      && Distinct(order)
      && (forall id :: id in rows <==> id in order)
      && (forall id :: id in rows ==> rows[id].id == Some(id) && Entity.IsRow(rows[id]))
    }

    constructor ()
      ensures Valid() && rows == map[] && order == []
    {
      rows := map[];
      order := [];
    }

    /** JpaRepository.count() */
    function Count(): nat
      reads this
    {
      |rows|
    }

    /** findById: the stored row, or empty. */
    function FindById(id: Uuid): (r: Option<Entity.AccountState>)
      reads this
      requires Valid()
      ensures r.Some? <==> id in rows
      ensures r.Some? ==> r.value.id == Some(id) && Entity.IsRow(r.value)
    {
      if id in rows then Some(rows[id]) else None
    }

    /** existsById */
    function ExistsById(id: Uuid): bool
      reads this
    {
      id in rows
    }

    /** findAll: every stored row, in insertion order. */
    function FindAll(): (r: seq<Entity.AccountState>)
      reads this
      requires Valid()
      ensures |r| == |order|
      ensures forall a :: a in r <==> a in rows.Values
      ensures forall a :: a in r ==> multiset(r)[a] == 1
    {
      LookupCoversRows(order, rows);
      LookupOnce(order, rows);
      Lookup(order, rows)
    }

    /** findByClientId: the stored rows owned by one client, in insertion order. */
    function FindByClientId(clientId: Uuid): (r: seq<Entity.AccountState>)
      reads this
      requires Valid()
      ensures forall a :: a in r <==> a in rows.Values && a.clientId == Some(clientId)
      ensures forall a :: multiset(r)[a] == if a in rows.Values && a.clientId == Some(clientId) then 1 else 0
    {
      OwnedBy(FindAll(), clientId)
    }

    /**
     * Whether the entity is a loaded row none of whose columns has changed:
     * the flush finds nothing dirty and writes nothing.
     */
    predicate NothingToFlush(s: Entity.AccountState)
      reads this
    {
      s.id.Some? && s.id.value in rows && Entity.Clean(s, rows[s.id.value])
    }

    /**
     * save, with the flush that writes it. An entity loaded from its row and
     * left unchanged is not written, so nothing is checked. Otherwise bean
     * validation comes first (a broken entity is refused and nothing is
     * stored), then the column check (a deposit too large for numeric(10, 2)
     * fails the write). An entity without an id gets the generated one and is
     * inserted, one with an id overwrites the row under it; the row keeps the
     * deposit rounded to cents, while the entity object handed back keeps the
     * value it was given.
     */
    method Save(entity: Entity.Account, generatedId: Uuid) returns (r: Result<Entity.AccountState, Exception>)
      requires Valid()
      requires entity.id.None? ==> generatedId !in rows
      modifies this, entity
      ensures Valid()
      ensures old(NothingToFlush(entity.State())) ==>
        && r == Success(old(entity.State()))
        && rows == old(rows) && order == old(order) && entity.State() == old(entity.State())
      ensures !old(NothingToFlush(entity.State())) && !Entity.Valid(old(entity.State())) ==>
        && r == Failure(ConstraintViolation(Entity.Violations(old(entity.State()))))
        && rows == old(rows) && order == old(order) && entity.State() == old(entity.State())
      ensures !old(NothingToFlush(entity.State())) && Entity.Valid(old(entity.State()))
              && !Entity.Storable(old(entity.State())) ==>
        && r == Failure(Runtime(NUMERIC_FIELD_OVERFLOW))
        && rows == old(rows) && order == old(order) && entity.State() == old(entity.State())
      ensures !old(NothingToFlush(entity.State())) && Entity.Storable(old(entity.State())) ==>
        var id := if old(entity.id).Some? then old(entity.id).value else generatedId;
        var saved := old(entity.State()).(id := Some(id));
        && r == Success(saved) && entity.State() == saved
        && rows == old(rows)[id := Entity.Stored(saved)]
        && order == (if id in old(rows) then old(order) else old(order) + [id])
    {
      var s := entity.State();
      if NothingToFlush(s) {
        return Success(s);
      }
      if !Entity.Valid(s) {
        return Failure(ConstraintViolation(Entity.Violations(s)));
      }
      if !FitsColumn(s.initialDeposit.value) {
        return Failure(Runtime(NUMERIC_FIELD_OVERFLOW));
      }
      if entity.id.None? {
        entity.SetId(generatedId);
      }
      var id := entity.id.value;
      var saved := entity.State();
      if id !in rows {
        order := order + [id];
      }
      Entity.StoredIsRow(saved);
      rows := rows[id := Entity.Stored(saved)];
      r := Success(saved);
    }

    /** deleteById: removes the row if there is one. */
    method DeleteById(id: Uuid)
      requires Valid()
      modifies this
      ensures Valid()
      ensures rows == old(rows) - {id}
      ensures order == Without(old(order), id)
    {
      rows := rows - {id};
      order := Without(order, id);
    }
  }

  /** existsById holds exactly when some stored account carries that id. */
  lemma ExistsByIdIffStored(repo: AccountRepository, id: Uuid)
    requires repo.Valid()
    ensures repo.ExistsById(id) <==> exists a :: a in repo.FindAll() && a.id == Some(id)
  {
    if id in repo.rows {
      assert repo.rows[id] in repo.rows.Values;
    }
  }

  /** A stored account that is looked up again reads back as stored. */
  lemma SavedIsFound(repo: AccountRepository, id: Uuid, row: Entity.AccountState)
    requires repo.Valid() && id in repo.rows && repo.rows[id] == row
    ensures repo.FindById(id) == Some(row)
    ensures row in repo.FindAll()
  {
    assert row in repo.rows.Values;
  }

  /** The ids a list holds. */
  function IdSet(ids: seq<Uuid>): (r: set<Uuid>)
    ensures forall x :: x in r <==> x in ids
  {
    set x | x in ids
  }

  /** A list without repeats has as many elements as the set of its elements. */
  lemma {:induction false} DistinctCardinality(ids: seq<Uuid>)
    requires Distinct(ids)
    ensures |IdSet(ids)| == |ids|
  {
    if ids != [] {
      var rest := ids[1..];
      assert Distinct(rest) by {
        forall i, j | 0 <= i < j < |rest|
          ensures rest[i] != rest[j]
        {
          assert rest[i] == ids[i + 1] && rest[j] == ids[j + 1];
        }
      }
      DistinctCardinality(rest);
      assert ids[0] !in rest by {
        forall j | 0 <= j < |rest|
          ensures rest[j] != ids[0]
        {
          assert rest[j] == ids[j + 1];
        }
      }
      assert ids == [ids[0]] + rest;
      assert IdSet(ids) == IdSet(rest) + {ids[0]};
    }
  }

  /** count() equals the number of ids listed in insertion order. */
  lemma CountIsOrderLength(repo: AccountRepository)
    requires repo.Valid()
    ensures repo.Count() == |repo.order|
  {
    DistinctCardinality(repo.order);
    assert repo.rows.Keys == IdSet(repo.order);
  }
}
