/**
 * The order repository over an in-memory `orders` table: insertion, the filtered
 * listing and the two single-row lookups. Rows are kept in table order; the
 * primary column `orderNumber` and the unique column `uniqueId` identify a row.
 */
module Repository {
  import opened Wrappers
  import opened Orders

  /** The table's key constraints: no two rows share an `orderNumber` or a `uniqueId`. */
  ghost predicate KeysUnique(rows: seq<Order>) {
    forall i, j :: 0 <= i < j < |rows| ==>
      rows[i].orderNumber != rows[j].orderNumber && rows[i].uniqueId != rows[j].uniqueId
  }

  /** Under the key constraints a row is determined by either of its keys. */
  lemma KeyDetermines(rows: seq<Order>, a: Order, b: Order)
    requires KeysUnique(rows) && a in rows && b in rows
    requires a.orderNumber == b.orderNumber || a.uniqueId == b.uniqueId
    ensures a == b
  {
    var i :| 0 <= i < |rows| && rows[i] == a;
    var j :| 0 <= j < |rows| && rows[j] == b;
    assert !(i < j) && !(j < i);
  }

  /** The first element satisfying `p`, or `None` if there is none (`findOne`). */
  function First<T>(s: seq<T>, p: T -> bool): (r: Option<T>)
    ensures r.Some? ==> r.value in s && p(r.value)
    ensures r.None? <==> forall x :: x in s ==> !p(x)
  {
    if |s| == 0 then None
    else if p(s[0]) then Some(s[0])
    else First(s[1..], p)
  }

  /** The elements satisfying `keep`, in order; each kept element keeps its multiplicity. */
  function Select(s: seq<Order>, keep: Order -> bool): (r: seq<Order>)
    ensures forall x :: multiset(r)[x] == if keep(x) then multiset(s)[x] else 0
  {
    if |s| == 0 then []
    else
      assert s == [s[0]] + s[1..];
      (if keep(s[0]) then [s[0]] else []) + Select(s[1..], keep)
  }

  /** Selecting with two predicates that agree everywhere gives the same sequence. */
  lemma {:induction false} SelectCongruent(s: seq<Order>, p: Order -> bool, q: Order -> bool)
    requires forall x :: p(x) == q(x)
    ensures Select(s, p) == Select(s, q)
  {
    if |s| > 0 {
      SelectCongruent(s[1..], p, q);
    }
  }

  function OrderNumberIs(orderNumber: string): Order -> bool {
    (o: Order) => o.orderNumber == orderNumber
  }

  function UniqueIdIs(uniqueId: string): Order -> bool {
    (o: Order) => o.uniqueId == uniqueId
  }

  /** The `where` object `findAll` builds: `country` equality and a `%…%` pattern on
      `paymentDescription`, each present or absent. */
  datatype Where = Where(country: Option<string>, descriptionContains: Option<string>)

  /** A row satisfies a `where` object when it meets each constraint present. */
  predicate Matches(w: Where, o: Order) {
    && (w.country.Some? ==> o.country == w.country.value)
    && (w.descriptionContains.Some? ==> IsSubstring(w.descriptionContains.value, o.paymentDescription))
  }

  /** The listing filter's meaning, stated on the filter itself: a truthy `country`
      must equal the row's country, a truthy `description` must occur in the row's
      payment description, and an absent filter admits every row. */
  predicate Admits(filter: Option<OrderFilter>, o: Order) {
    filter.Some? ==>
      && (Truthy(filter.value.country) ==> o.country == filter.value.country.value)
      && (Truthy(filter.value.description) ==>
            IsSubstring(filter.value.description.value, o.paymentDescription))
  }

  /** The rows `findAll(filter)` returns, in table order. */
  function Query(rows: seq<Order>, filter: Option<OrderFilter>): seq<Order> {
    Select(rows, o => Admits(filter, o))
  }

  /** Every returned row is a stored row that the filter admits, with its multiplicity;
      in particular the result is a sub-multiset of the table. */
  lemma QueryExactly(rows: seq<Order>, filter: Option<OrderFilter>)
    ensures forall o :: multiset(Query(rows, filter))[o] == if Admits(filter, o) then multiset(rows)[o] else 0
    ensures multiset(Query(rows, filter)) <= multiset(rows)
    ensures forall o :: o in Query(rows, filter) <==> o in rows && Admits(filter, o)
  {
    var r := Query(rows, filter);
    forall o
      ensures o in r <==> o in rows && Admits(filter, o)
    {
      assert o in r <==> multiset(r)[o] > 0;
      assert o in rows <==> multiset(rows)[o] > 0;
    }
  }

  /** With no filter, or with both fields falsy, every stored row is returned in order. */
  lemma {:induction false} QueryUnfiltered(rows: seq<Order>, filter: Option<OrderFilter>)
    requires filter.None? || (!Truthy(filter.value.country) && !Truthy(filter.value.description))
    ensures Query(rows, filter) == rows
  {
    if |rows| > 0 {
      QueryUnfiltered(rows[1..], filter);
      assert Query(rows[1..], filter) == Select(rows[1..], o => Admits(filter, o));
      assert rows == [rows[0]] + rows[1..];
    }
  }

  /** An empty-string field is falsy and constrains nothing: it behaves as if absent. */
  lemma QueryEmptyStringIgnored(rows: seq<Order>, country: Option<string>, description: Option<string>)
    ensures Query(rows, Some(OrderFilter(Some(""), description)))
         == Query(rows, Some(OrderFilter(None, description)))
    ensures Query(rows, Some(OrderFilter(country, Some(""))))
         == Query(rows, Some(OrderFilter(country, None)))
  {
    SelectCongruent(rows, o => Admits(Some(OrderFilter(Some(""), description)), o),
                          o => Admits(Some(OrderFilter(None, description)), o));
    SelectCongruent(rows, o => Admits(Some(OrderFilter(country, Some(""))), o),
                          o => Admits(Some(OrderFilter(country, None)), o));
  }

  /** When no row is admitted the result is empty, not an error. */
  lemma QueryNoMatch(rows: seq<Order>, filter: Option<OrderFilter>)
    requires forall o :: o in rows ==> !Admits(filter, o)
    ensures Query(rows, filter) == []
  {
    QueryExactly(rows, filter);
    var r := Query(rows, filter);
    assert multiset(r) == multiset{};
    assert |r| == |multiset(r)|;
  }

  /** Two truthy fields combine with AND. */
  lemma QueryCombined(rows: seq<Order>, country: string, description: string, o: Order)
    requires country != "" && description != ""
    ensures o in Query(rows, Some(OrderFilter(Some(country), Some(description))))
        <==> o in rows && o.country == country && IsSubstring(description, o.paymentDescription)
  {
    QueryExactly(rows, Some(OrderFilter(Some(country), Some(description))));
  }

  /** Appending a row leaves unchanged every lookup whose condition the new row does not meet. */
  lemma {:induction false} FirstAfterAppend(rows: seq<Order>, o: Order, p: Order -> bool)
    requires !p(o)
    ensures First(rows + [o], p) == First(rows, p)
  {
    if |rows| > 0 {
      assert (rows + [o])[1..] == rows[1..] + [o];
      FirstAfterAppend(rows[1..], o, p);
    }
  }

  /** The `orders` table behind TypeORM's `Repository<Order>`. */
  class OrderRepository {
    var rows: seq<Order>

    ghost predicate Valid()
      reads this
    {
      KeysUnique(rows)
    }

    constructor ()
      ensures Valid() && rows == []
    {
      rows := [];
    }

    /** `findOne({ where: { orderNumber } })`. */
    function FindByOrderNumber(orderNumber: string): (r: Option<Order>)
      reads this
      ensures r.Some? ==> r.value in rows && r.value.orderNumber == orderNumber
      ensures r.None? <==> forall o :: o in rows ==> o.orderNumber != orderNumber
    {
      First(rows, OrderNumberIs(orderNumber))
    }

    /** `findOne({ where: { uniqueId } })`. */
    function FindByUniqueId(uniqueId: string): (r: Option<Order>)
      reads this
      ensures r.Some? ==> r.value in rows && r.value.uniqueId == uniqueId
      ensures r.None? <==> forall o :: o in rows ==> o.uniqueId != uniqueId
    {
      First(rows, UniqueIdIs(uniqueId))
    }

    /** `create` then `save` of a row whose order number is not yet in the table.
        A `uniqueId` already in the table violates its unique constraint: the write
        fails and the table is unchanged. Otherwise the row is appended and both
        lookups on its keys find it. */
    method Create(order: Order) returns (r: Result<Order, OrderError>)
      requires Valid()
      requires FindByOrderNumber(order.orderNumber).None?
      modifies this
      ensures Valid()
      ensures old(FindByUniqueId(order.uniqueId)).Some? ==>
        r == Err(StorageFailure(UniqueViolationMessage)) && rows == old(rows)
      ensures old(FindByUniqueId(order.uniqueId)).None? ==>
        && r == Ok(order)
        && rows == old(rows) + [order]
        && FindByOrderNumber(order.orderNumber) == Some(order)
        && FindByUniqueId(order.uniqueId) == Some(order)
    {
      if FindByUniqueId(order.uniqueId).Some? {
        return Err(StorageFailure(UniqueViolationMessage));
      }
      rows := rows + [order];
      r := Ok(order);
      assert order in rows;
      KeyDetermines(rows, FindByOrderNumber(order.orderNumber).value, order);
      KeyDetermines(rows, FindByUniqueId(order.uniqueId).value, order);
    }

    /** `findAll(filter)`: builds the `where` object field by field, then runs the query. */
    method FindAll(filter: Option<OrderFilter>) returns (found: seq<Order>)
      ensures found == Query(rows, filter)
    {
      var where := Where(None, None);
      if filter.Some? {
        if Truthy(filter.value.country) {
          where := where.(country := filter.value.country);
        }
        if Truthy(filter.value.description) {
          where := where.(descriptionContains := filter.value.description);
        }
      }
      found := Select(rows, o => Matches(where, o));
      SelectCongruent(rows, o => Matches(where, o), o => Admits(filter, o));
    }
  }

  const UniqueViolationMessage: string := "duplicate key value violates unique constraint"
}
