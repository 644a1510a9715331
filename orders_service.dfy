/**
 * The orders service: duplicate-number rejection and id assignment on creation,
 * the priority-country/due-date ordering of listings, and the two lookups that
 * turn a miss into NotFound.
 */
module Service {
  import opened Wrappers
  import opened Orders
  import opened IdGenerator
  import opened Repository

  /** The country whose orders are listed first. */
  const PriorityCountry: string := "Estonia"

  /** The comparator handed to `sort`: negative when `a` is to precede `b`. */
  function Compare(a: Order, b: Order): int {
    if a.country == PriorityCountry && b.country != PriorityCountry then -1
    else if a.country != PriorityCountry && b.country == PriorityCountry then 1
    else a.paymentDueDate - b.paymentDueDate
  }

  predicate InOrder(a: Order, b: Order) {
    Compare(a, b) <= 0
  }

  /** Every pair of positions respects the comparator. */
  predicate Sorted(s: seq<Order>) {
    forall i, j :: 0 <= i < j < |s| ==> InOrder(s[i], s[j])
  }

  /** Every priority-country order precedes every other order. */
  predicate PriorityFirst(s: seq<Order>) {
    forall i, j :: 0 <= i < j < |s| && s[j].country == PriorityCountry ==> s[i].country == PriorityCountry
  }

  /** Within the priority group and within the rest, due dates do not decrease. */
  predicate DueDatesAscendInGroups(s: seq<Order>) {
    forall i, j :: 0 <= i < j < |s| && (s[i].country == PriorityCountry) == (s[j].country == PriorityCountry)
      ==> s[i].paymentDueDate <= s[j].paymentDueDate
  }

  /** The comparator is consistent, as `sort` needs: antisymmetric in sign, transitive
      and total. */
  lemma CompareConsistent(a: Order, b: Order, c: Order)
    ensures Compare(a, b) < 0 <==> Compare(b, a) > 0
    ensures Compare(a, b) == 0 <==> Compare(b, a) == 0
    ensures InOrder(a, b) && InOrder(b, c) ==> InOrder(a, c)
    ensures InOrder(a, b) || InOrder(b, a)
  {
  }

  /** Sorted by the comparator means exactly: the priority country first, then due
      dates ascending within each group. */
  lemma SortedMeansPriorityThenDueDate(s: seq<Order>)
    ensures Sorted(s) <==> PriorityFirst(s) && DueDatesAscendInGroups(s)
  {
    if PriorityFirst(s) && DueDatesAscendInGroups(s) {
      forall i, j | 0 <= i < j < |s|
        ensures InOrder(s[i], s[j])
      {
        if s[j].country == PriorityCountry {
          assert s[i].country == PriorityCountry;
        }
      }
    }
    if Sorted(s) {
      forall i, j | 0 <= i < j < |s| && s[j].country == PriorityCountry
        ensures s[i].country == PriorityCountry
      {
        assert InOrder(s[i], s[j]);
      }
      forall i, j | 0 <= i < j < |s| && (s[i].country == PriorityCountry) == (s[j].country == PriorityCountry)
        ensures s[i].paymentDueDate <= s[j].paymentDueDate
      {
        assert InOrder(s[i], s[j]);
      }
    }
  }

  /** `Array.prototype.sort` with the comparator, as a stable insertion sort in place. */
  method SortOrders(a: array<Order>)
    modifies a
    ensures Sorted(a[..])
    ensures multiset(a[..]) == multiset(old(a[..]))
  {
    var i := 0;
    while i < a.Length
      invariant 0 <= i <= a.Length
      invariant Sorted(a[..i])
      invariant multiset(a[..]) == multiset(old(a[..]))
    {
      Insert(a, i);
      i := i + 1;
    }
    assert a[..a.Length] == a[..];
  }

  /** Moves `a[i]` left into the sorted prefix `a[..i]`. */
  method Insert(a: array<Order>, i: nat)
    requires i < a.Length && Sorted(a[..i])
    modifies a
    ensures Sorted(a[..i + 1])
    ensures multiset(a[..i + 1]) == multiset(old(a[..i + 1]))
    ensures a[i + 1..] == old(a[i + 1..])
    ensures multiset(a[..]) == multiset(old(a[..]))
  {
    var j := i;
    while 0 < j && Compare(a[j - 1], a[j]) > 0
      invariant 0 <= j <= i
      invariant multiset(a[..]) == multiset(old(a[..]))
      invariant a[i + 1..] == old(a[i + 1..])
      invariant Displaced(a[..], i, j)
    {
      ghost var before := a[..];
      Swap(a, j - 1);
      SwapStep(before, a[..], i, j);
      j := j - 1;
    }
    InsertedSorted(a[..], i, j);
    PrefixPermuted(a[..], old(a[..]), i + 1);
    assert a[..][..i + 1] == a[..i + 1];
  }

  /** The loop state of `Insert`: `s[..i + 1]` is in order apart from the element at `j`,
      which is in order with everything after it up to `i`. */
  predicate Displaced(s: seq<Order>, i: nat, j: nat)
    requires j <= i < |s|
  {
    && (forall k, l :: 0 <= k < l <= i && k != j && l != j ==> InOrder(s[k], s[l]))
    && (forall l :: j < l <= i ==> InOrder(s[j], s[l]))
  }

  /** One swap of `Insert` moves the out-of-order element from `j` to `j - 1`, keeping the
      loop's ordering facts and the part of the array past `i`. */
  lemma SwapStep(s: seq<Order>, t: seq<Order>, i: nat, j: nat)
    requires 0 < j <= i < |s| && Compare(s[j - 1], s[j]) > 0
    requires t == s[j - 1 := s[j]][j := s[j - 1]]
    requires Displaced(s, i, j)
    ensures t[i + 1..] == s[i + 1..]
    ensures Displaced(t, i, j - 1)
  {
    assert InOrder(t[j - 1], t[j]) by { CompareConsistent(s[j], s[j - 1], s[j]); }
    forall k, l | 0 <= k < l <= i && k != j - 1 && l != j - 1
      ensures InOrder(t[k], t[l])
    {
      if k == j {
        assert InOrder(s[j - 1], s[l]);
      } else if l == j {
        assert InOrder(s[k], s[j - 1]);
      }
    }
    forall l | j - 1 < l <= i
      ensures InOrder(t[j - 1], t[l])
    {
    }
  }

  /** When the loop of `Insert` stops at `j`, the prefix `s[..i + 1]` is sorted. */
  lemma InsertedSorted(s: seq<Order>, i: nat, j: nat)
    requires j <= i < |s|
    requires j == 0 || Compare(s[j - 1], s[j]) <= 0
    requires Displaced(s, i, j)
    ensures Sorted(s[..i + 1])
  {
    forall k, l | 0 <= k < l <= i
      ensures InOrder(s[k], s[l])
    {
      if l == j && k < j - 1 {
        CompareConsistent(s[k], s[j - 1], s[j]);
      }
    }
  }

  /** Two permutations of each other that agree from `n` on permute their first `n` elements. */
  lemma PrefixPermuted(s: seq<Order>, t: seq<Order>, n: nat)
    requires n <= |s| == |t|
    requires multiset(s) == multiset(t) && s[n..] == t[n..]
    ensures multiset(s[..n]) == multiset(t[..n])
  {
    assert s == s[..n] + s[n..];
    assert t == t[..n] + t[n..];
    assert multiset(s[..n]) == multiset(s) - multiset(s[n..]);
  }

  /** Exchanges `a[k]` and `a[k + 1]`. */
  method Swap(a: array<Order>, k: nat)
    requires k + 1 < a.Length
    modifies a
    ensures a[..] == old(a[..])[k := old(a[k + 1])][k + 1 := old(a[k])]
    ensures multiset(a[..]) == multiset(old(a[..]))
  {
    a[k], a[k + 1] := a[k + 1], a[k];
  }

  /** The unit tests' unsorted listing (ORD-1 Finland due 10 January, ORD-2 Estonia due
      20 January, ORD-3 Estonia due 5 January) has exactly one sorted arrangement:
      ORD-3, ORD-2, ORD-1. Due dates are given in days here; only their order matters. */
  lemma SortExample(s: seq<Order>, ord1: Order, ord2: Order, ord3: Order)
    requires ord1.country == "Finland" && ord1.paymentDueDate == 10
    requires ord2.country == PriorityCountry && ord2.paymentDueDate == 20
    requires ord3.country == PriorityCountry && ord3.paymentDueDate == 5
    requires multiset(s) == multiset([ord1, ord2, ord3])
    requires Sorted(s)
    ensures s == [ord3, ord2, ord1]
  {
    assert |s| == |multiset(s)| == 3;
    assert s[0] in multiset(s) && s[1] in multiset(s) && s[2] in multiset(s);
    assert InOrder(s[0], s[1]) && InOrder(s[1], s[2]) && InOrder(s[0], s[2]);
  }

  function DuplicateMessage(orderNumber: string): string {
    "Order with number " + orderNumber + " already exists"
  }

  function UniqueIdNotFoundMessage(uniqueId: string): string {
    "Order with unique ID " + uniqueId + " not found"
  }

  function OrderNumberNotFoundMessage(orderNumber: string): string {
    "Order with number " + orderNumber + " not found"
  }

  /** Each failure message names the key it failed on and says what went wrong. */
  lemma MessagesNameTheKey(key: string)
    ensures IsSubstring(key, DuplicateMessage(key)) && IsSubstring("already exists", DuplicateMessage(key))
    ensures IsSubstring(key, UniqueIdNotFoundMessage(key)) && IsSubstring("not found", UniqueIdNotFoundMessage(key))
    ensures IsSubstring(key, OrderNumberNotFoundMessage(key)) && IsSubstring("not found", OrderNumberNotFoundMessage(key))
  {
    SubstringAt("Order with number ", key, " already exists");
    SubstringAt("Order with number " + key + " ", "already exists", "");
    assert DuplicateMessage(key) == "Order with number " + key + " " + "already exists" + "";
    SubstringAt("Order with unique ID ", key, " not found");
    SubstringAt("Order with unique ID " + key + " ", "not found", "");
    assert UniqueIdNotFoundMessage(key) == "Order with unique ID " + key + " " + "not found" + "";
    SubstringAt("Order with number ", key, " not found");
    SubstringAt("Order with number " + key + " ", "not found", "");
    assert OrderNumberNotFoundMessage(key) == "Order with number " + key + " " + "not found" + "";
  }

  /** The service, holding the repository and the id generator it was constructed with. */
  class OrdersService {
    const repository: OrderRepository
    const idGenerator: IdGeneratorUtil

    constructor (repository: OrderRepository, idGenerator: IdGeneratorUtil)
      ensures this.repository == repository && this.idGenerator == idGenerator
    {
      this.repository := repository;
      this.idGenerator := idGenerator;
    }

    /** `create`: a taken order number is a Conflict and nothing else happens; a fresh
        one gets the next generated id and the combined record is persisted. */
    method Create(dto: CreateOrderDto) returns (r: Result<Order, OrderError>)
      requires repository.Valid()
      modifies repository, idGenerator
      ensures repository.Valid()
      ensures old(repository.FindByOrderNumber(dto.orderNumber)).Some? ==>
        && r == Err(Conflict(DuplicateMessage(dto.orderNumber)))
        && repository.rows == old(repository.rows)
        && idGenerator.calls == old(idGenerator.calls)
      ensures old(repository.FindByOrderNumber(dto.orderNumber)).None? ==>
        var order := WithUniqueId(dto, UniqueId(idGenerator.source(old(idGenerator.calls))));
        && idGenerator.calls == old(idGenerator.calls) + 1
        && (old(repository.FindByUniqueId(order.uniqueId)).None? ==>
              r == Ok(order) && repository.rows == old(repository.rows) + [order])
        && (old(repository.FindByUniqueId(order.uniqueId)).Some? ==>
              r == Err(StorageFailure(UniqueViolationMessage)) && repository.rows == old(repository.rows))
    {
      var existing := repository.FindByOrderNumber(dto.orderNumber);
      if existing.Some? {
        return Err(Conflict(DuplicateMessage(dto.orderNumber)));
      }
      var uniqueId := idGenerator.GenerateUniqueId();
      var orderData := WithUniqueId(dto, uniqueId);
      r := repository.Create(orderData);
    }

    /** `findAll`: the repository's rows for the filter (absent means `{}`), sorted. */
    method FindAll(filter: Option<OrderFilter>) returns (orders: seq<Order>)
      ensures multiset(orders) == multiset(Query(repository.rows, Some(filter.GetOr(OrderFilter(None, None)))))
      ensures Sorted(orders)
    {
      var found := repository.FindAll(Some(filter.GetOr(OrderFilter(None, None))));
      var a := new Order[|found|](k requires 0 <= k < |found| => found[k]);
      assert a[..] == found;
      SortOrders(a);
      orders := a[..];
    }

    /** `findByUniqueId`: the stored row with that id, or NotFound naming the id. */
    method FindByUniqueId(uniqueId: string) returns (r: Result<Order, OrderError>)
      requires repository.Valid()
      ensures forall o :: o in repository.rows && o.uniqueId == uniqueId ==> r == Ok(o)
      ensures (forall o :: o in repository.rows ==> o.uniqueId != uniqueId) ==>
        r == Err(NotFound(UniqueIdNotFoundMessage(uniqueId)))
    {
      var order := repository.FindByUniqueId(uniqueId);
      if order.None? {
        return Err(NotFound(UniqueIdNotFoundMessage(uniqueId)));
      }
      r := Ok(order.value);
      forall o | o in repository.rows && o.uniqueId == uniqueId
        ensures r == Ok(o)
      {
        KeyDetermines(repository.rows, o, order.value);
      }
    }

    /** `findByOrderNumber`: the stored row with that number, or NotFound naming it. */
    method FindByOrderNumber(orderNumber: string) returns (r: Result<Order, OrderError>)
      requires repository.Valid()
      ensures forall o :: o in repository.rows && o.orderNumber == orderNumber ==> r == Ok(o)
      ensures (forall o :: o in repository.rows ==> o.orderNumber != orderNumber) ==>
        r == Err(NotFound(OrderNumberNotFoundMessage(orderNumber)))
    {
      var order := repository.FindByOrderNumber(orderNumber);
      if order.None? {
        return Err(NotFound(OrderNumberNotFoundMessage(orderNumber)));
      }
      r := Ok(order.value);
      forall o | o in repository.rows && o.orderNumber == orderNumber
        ensures r == Ok(o)
      {
        KeyDetermines(repository.rows, o, order.value);
      }
    }
  }
}
