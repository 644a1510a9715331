/**
 * The order entity, the creation input and the listing filter
 * (the entity class, the order interface and the two DTOs of the orders module).
 */
module Orders {
  import opened Wrappers

  /** An `orders` row. `paymentDueDate` is the due date's `getTime()` in milliseconds;
      `amount` is the decimal column, carried as an opaque value. The store-assigned
      `createdAt`/`updatedAt` timestamps are not modelled. */
  datatype Order = Order(
    orderNumber: string,
    uniqueId: string,
    paymentDescription: string,
    streetAddress: string,
    town: string,
    country: string,
    amount: real,
    currency: string,
    paymentDueDate: int)

  /** The creation input: every order field except `uniqueId`. */
  datatype CreateOrderDto = CreateOrderDto(
    orderNumber: string,
    paymentDescription: string,
    streetAddress: string,
    town: string,
    country: string,
    amount: real,
    currency: string,
    paymentDueDate: int)

  /** The listing filter; each field may be absent (`undefined`). */
  datatype OrderFilter = OrderFilter(country: Option<string>, description: Option<string>)

  /** The typed failures of the service: `ConflictException`, `NotFoundException`,
      and a failed write reported by the store. */
  datatype OrderError =
    | Conflict(message: string)
    | NotFound(message: string)
    | StorageFailure(message: string)

  /** `{ ...dto, uniqueId }`: the dto's fields with the generated id added. */
  function WithUniqueId(dto: CreateOrderDto, uniqueId: string): (o: Order)
    ensures o.uniqueId == uniqueId && ToDto(o) == dto
  {
    Order(dto.orderNumber, uniqueId, dto.paymentDescription, dto.streetAddress,
          dto.town, dto.country, dto.amount, dto.currency, dto.paymentDueDate)
  }

  /** The order's fields other than `uniqueId`. */
  function ToDto(o: Order): CreateOrderDto {
    CreateOrderDto(o.orderNumber, o.paymentDescription, o.streetAddress, o.town,
                   o.country, o.amount, o.currency, o.paymentDueDate)
  }

  /** JavaScript truthiness of an optional string: neither `undefined` nor `''`. */
  predicate Truthy(s: Option<string>) {
    s.Some? && s.value != ""
  }

  /** `needle` occurs in `hay` starting at position `i`. */
  predicate OccursAt(needle: string, hay: string, i: int) {
    0 <= i <= |hay| - |needle| && hay[i..i + |needle|] == needle
  }

  /** `needle` occurs in `hay` as a contiguous substring. */
  predicate IsSubstring(needle: string, hay: string) {
    exists i :: 0 <= i <= |hay| && OccursAt(needle, hay, i)
  }

  /** A string occurs in any string that has it at position |p|. */
  lemma SubstringAt(p: string, needle: string, q: string)
    ensures IsSubstring(needle, p + needle + q)
  {
    var hay := p + needle + q;
    assert OccursAt(needle, hay, |p|);
  }
}
