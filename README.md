# Order management API — a Dafny model of its core

The service manages payment orders: it creates an order under a caller-chosen
order number and a generated public id, lists orders with optional country and
description filters, and fetches one order by either key. This project models
the four places where that service has logic of its own:

- **`Service`** (`orders_service.dfy`): the orders service. `Create` rejects a
  taken order number with a Conflict without calling the id generator or writing
  anything; otherwise it persists the input plus the next generated id. `FindAll`
  forwards the filter (absent means `{}`) to the repository and sorts the rows in
  place with the service's comparator: orders in Estonia first, then ascending due
  date. The point lookups turn a miss into NotFound with the key in the message.
- **`Repository`** (`order_repository.dfy`): the repository over an in-memory
  `orders` table (a `seq<Order>` in table order). `FindAll` builds its `where`
  object field by field under JavaScript truthiness, so `undefined` and `''`
  constrain nothing. `country` is an exact match, `description` a substring match,
  and the two combine with AND. The lookups are `findOne` on either key.
  `KeysUnique` is the table's primary key on `orderNumber` and its unique
  constraint on `uniqueId`.
- **`IdGenerator`** (`id_generator.dfy`): the public id `AAA-bbbb-CCC`. The
  randomness is made explicit: a `RandomDraw` holds the alphabet positions the
  random generator picked, and `IdGeneratorUtil` consumes one draw per call from an
  injected source.
- **`LoggingInterceptor`** (`logging_interceptor.dfy`): `SanitizeBody`, the
  masking of sensitive keys in a logged request body.
- **`Orders`** and **`Wrappers`**: the order record, the creation input, the
  filter, the error kinds, and Option/Result.

Where the code, its tests and its doc comments disagree, the model follows the code:

- The lower alphabet contains `i` and omits `l`. The id tests' middle-segment pattern
  `[2-9a-hj-np-z]` (test/unit/common/utils/id-generator.utils.spec.ts:71) forbids `i`
  and allows `l`, so it does not describe this alphabet, and the model does not claim
  it. `ConfusableLettersCanAppear` exhibits an `i` in the middle segment.
- The upper alphabet contains `L`. The id tests allow it: their confusable list is
  `0, 1, O, I, l` (id-generator.utils.spec.ts:47-52) and their outer-segment pattern
  `[2-9A-HJ-NP-Z]` (:21, :61) includes `L`. No file of the repository asks for `L`
  to be excluded. `ConfusableLettersCanAppear` exhibits an `L` in the first segment. What is proved is
  that the id never contains `0`, `1`, `O`, `I` or `l`.
- An empty-string filter value is ignored, because the repository tests
  truthiness. It is not passed on as a literal filter.
- A write that violates the unique constraint on `uniqueId` comes back from the
  repository as a storage failure. The service passes it on and does not turn it
  into a Conflict.
- The doc comment on the generator calls the middle segment "mixed case". It is
  lowercase letters and digits only.

## Model

| member | source | states |
|---|---|---|
| Orders.WithUniqueId | src/modules/orders/services/orders.service.ts:28-31 | the persisted record is the dto's fields plus the given `uniqueId`, and dropping the id gives the dto back |
| IdGenerator.UniqueId | src/common/utils/id-generator.utils.ts:28-36 | the id has 12 characters, with separators at 3 and 8; the segments are the draw's three spelled segments; outer characters are in the upper alphabet and middle ones in the lower |
| IdGenerator.Segments | src/common/utils/id-generator.utils.ts:17-18 | a draw gives three segments of 3, 4 and 3 characters; the first and last use only the upper alphabet, the middle one only the lower; no segment holds the separator |
| IdGenerator.UpperAlphabetWellFormed | src/common/utils/id-generator.utils.ts:10 | the upper alphabet has 32 distinct characters and contains neither `-` nor any of `0 1 O I l` |
| IdGenerator.LowerAlphabetWellFormed | src/common/utils/id-generator.utils.ts:11 | the lower alphabet has 32 distinct characters and contains neither `-` nor any of `0 1 O I l` |
| IdGenerator.AscendingDistinct | src/common/utils/id-generator.utils.ts:10-11 | an alphabet whose character codes strictly increase has no repeated character |
| IdGenerator.NotInGap | src/common/utils/id-generator.utils.ts:10-11 | a character that falls between two neighbours of an ascending alphabet is not in that alphabet |
| IdGenerator.UniqueIdReadable | src/common/utils/id-generator.utils.ts:10-11 | no id contains `0`, `1`, `O`, `I` or `l`, and `-` occurs exactly at positions 3 and 8 |
| IdGenerator.SplitJoin | src/common/utils/id-generator.utils.ts:35 | splitting a join of separator-free parts on the separator gives back exactly those parts |
| IdGenerator.SplitUniqueId | src/common/utils/id-generator.utils.ts:29-35 | `id.split('-')` yields exactly the three generated segments |
| IdGenerator.ConfusableLettersCanAppear | src/common/utils/id-generator.utils.ts:10-11 | with the code's alphabets an id can start with `L` and its middle segment can start with `i` |
| IdGenerator.IdGeneratorUtil.GenerateUniqueId | src/common/utils/id-generator.utils.ts:28-36 | each call consumes exactly one draw of the random source and returns that draw's id |
| Repository.KeyDetermines | src/modules/orders/entities/order.entity.ts:6-12 | under the primary key and the unique constraint, two stored rows sharing either key are the same row |
| Repository.First | src/modules/orders/repositories/order.repository.ts:44-54 | `findOne` returns a stored element that satisfies the condition, and returns nothing exactly when no stored element does |
| Repository.Select | src/modules/orders/repositories/order.repository.ts:41 | each kept row appears as often as in the table, and every other row does not appear |
| Repository.QueryExactly | src/modules/orders/repositories/order.repository.ts:20-41 | the listing is a sub-multiset of the table, and a row is listed exactly when it is stored and the filter admits it |
| Repository.QueryUnfiltered | src/modules/orders/repositories/order.repository.ts:20-25 | with no filter, or with both fields falsy, every stored row is returned in table order |
| Repository.QueryEmptyStringIgnored | src/modules/orders/repositories/order.repository.ts:26-38 | an empty-string `country` or `description` gives the same listing as leaving the field out |
| Repository.QueryNoMatch | src/modules/orders/repositories/order.repository.ts:41 | when no row matches, the listing is the empty sequence |
| Repository.QueryCombined | src/modules/orders/repositories/order.repository.ts:26-38 | with both fields truthy, a row is listed exactly when it is stored, its country equals the filter's country, and its description contains the filter's description |
| Repository.FirstAfterAppend | src/modules/orders/repositories/order.repository.ts:15-18 | appending a row leaves every lookup the new row does not match unchanged |
| Repository.OrderRepository.FindByOrderNumber | src/modules/orders/repositories/order.repository.ts:50-54 | returns a stored row with exactly that order number, or nothing exactly when no stored row has it |
| Repository.OrderRepository.FindByUniqueId | src/modules/orders/repositories/order.repository.ts:44-48 | returns a stored row with exactly that unique id, or nothing exactly when no stored row has it |
| Repository.OrderRepository.Create | src/modules/orders/repositories/order.repository.ts:15-18 | for a fresh order number: a taken `uniqueId` fails the write and leaves the table unchanged; otherwise the row is appended, the key constraints still hold, and both lookups on its keys return it |
| Repository.OrderRepository.FindAll | src/modules/orders/repositories/order.repository.ts:20-42 | the `where` object built field by field selects exactly the rows the filter admits (`Query`) |
| Service.CompareConsistent | src/modules/orders/services/orders.service.ts:40-45 | the comparator is antisymmetric in sign, transitive and total |
| Service.SortedMeansPriorityThenDueDate | src/modules/orders/services/orders.service.ts:40-45 | sorted by the comparator holds exactly when every Estonia order precedes every other order and due dates do not decrease within each group |
| Service.SortOrders | src/modules/orders/services/orders.service.ts:40 | the in-place sort leaves the array sorted by the comparator and a permutation of its old contents |
| Service.Insert | src/modules/orders/services/orders.service.ts:40 | one insertion step leaves `a[..i + 1]` sorted and a permutation of its old contents, and leaves `a[i + 1..]` unchanged |
| Service.SortExample | test/unit/modules/orders/services/orders.service.spec.ts:186-220 | the only sorted arrangement of the test's three orders is ORD-3, ORD-2, ORD-1 |
| Service.MessagesNameTheKey | src/modules/orders/services/orders.service.ts:23-64 | the Conflict and NotFound messages contain the key, and contain "already exists" and "not found" respectively |
| Service.OrdersService.Create | src/modules/orders/services/orders.service.ts:18-35 | a taken order number gives Conflict naming it, with the table and the generator untouched; a fresh one uses exactly one generated id and persists and returns exactly the dto plus that id, or passes on the storage failure if the id is taken |
| Service.OrdersService.FindAll | src/modules/orders/services/orders.service.ts:37-46 | the result is sorted and is a permutation of the repository's listing for the filter, where an absent filter means `{}` |
| Service.OrdersService.FindByUniqueId | src/modules/orders/services/orders.service.ts:48-57 | returns the stored row with that unique id unchanged; if there is none, NotFound with the id in the message |
| Service.OrdersService.FindByOrderNumber | src/modules/orders/services/orders.service.ts:59-68 | returns the stored row with that order number unchanged; if there is none, NotFound with the number in the message |
| LoggingInterceptor.SanitizeBody | src/common/interceptors/logging.interceptor.ts:62-76 | the copy has the same keys as the body; each sensitive key present reads `******`; every other key keeps its value; the result is `Masked(body)` |
| LoggingInterceptor.MaskedIdempotent | src/common/interceptors/logging.interceptor.ts:69-73 | masking an already masked body changes nothing |
| LoggingInterceptor.MaskedIdentityWithoutSensitiveKeys | src/common/interceptors/logging.interceptor.ts:64-73 | a body with no sensitive key is logged unchanged |

## Left out

- Randomness: nanoid's random choice of alphabet positions is an input (`RandomDraw`, and the injected `source` of `IdGeneratorUtil`). For the same reason the probabilistic test that 100 consecutive ids are distinct is not modelled.
- I/O, logging and timing: the logger calls in the service, `intercept` and `generateRequestId` (clock and `Math.random`) of the logging interceptor, the HTTP exception filter, the controller, the modules, swagger, configuration and server start-up.
- Request validation and HTTP status codes belong to the transport layer. The DTOs carry no validators.
- SQL `LIKE` wildcards and escapes: a `%` or `_` inside `description` is matched as a plain character, and so is a `\`, which PostgreSQL's `LIKE` treats as escaping the next character. The model tests plain substring containment, and case sensitivity follows plain character equality.
- Repository.OrderRepository.Create: requires a fresh order number. TypeORM's `save` on an existing primary key (an update) is not modelled; the service only calls it after checking the number.
- `createdAt`/`updatedAt` are assigned by the store and are not part of the record. `amount` is an opaque `real`, because nothing computes with it. `paymentDueDate` is the `getTime()` value as an unbounded integer.
- Store failures other than the `uniqueId` unique-constraint violation: a lost connection or a failing `find`, `findOne` or `save` (src/modules/orders/repositories/order.repository.ts:16-17, 41, 45-47, 51-53) is propagated by the service in the source, but the in-memory table never fails, so the model has no such path.
- Concurrency: the check-then-create race between two requests is out of scope, since every operation is modelled as one sequential step.
- Service.SortOrders: the model proves sortedness and permutation. It does not state stability, although the insertion sort is stable, as JavaScript's sort is.
- The listing's order within the repository, and any ordering the database applies, are not relied on: only the service's in-memory sort is modelled.
