# filmorate core, modelled in Dafny

filmorate is a small REST service that keeps films and users in in-memory maps.
This project models the parts that hold logic:

- the three controllers (`FilmController` and two revisions of `UserController`).
  Each is a map from `long` id to entity, with list, create and replace operations;
- the static id counter of `Film`, which is post-incremented on every construction;
- `IsAfterValidator`, which accepts a `LocalDate` that is present and not before a configured floor.

Modules, one per source component:

| module | file | models |
|---|---|---|
| `JavaLang` | `java_lang.dfy` | `long` as a 64-bit newtype, `counter++` wrap-around, `Date`/`Duration` carried but never examined |
| `Outcomes` | `outcomes.dfy` | `ValidationException` (with the guard that fired) and `IdentifierDoesNotExistException` |
| `Dates` | `dates.dfy` | `LocalDate` validity, `isBefore`, and an independent epoch-day count proved to give the same order |
| `IsAfterValidation` | `is_after_validator.dfy` | the `@IsAfter` annotation and its validator |
| `FilmModel` | `film.dfy` | `Film` and its static counter |
| `UserModel` | `user.dfy` | `User` |
| `Store` | `store.dfy` | the id-keyed map shared by every controller |
| `FilmControllerModel` | `film_controller.dfy` | `controller/FilmController.java` |
| `UserControllerStatic` | `user_controller_static.dfy` | `controller/UserController.java` (static map) |
| `UserControllerInstance` | `user_controller_instance.dfy` | `controller/usercontroller/UserController.java` (instance map) |

Each controller is a class with a `data: map<Long, Entity>` field. Its invariant `Valid()` says two things:
- every key is non-negative;
- every key names the entity stored under it.

Create and replace are methods whose contracts fix the outcome completely:
- a failure leaves `data` unchanged;
- a successful create adds exactly one key;
- replace keeps the key set and never inserts.

The three controllers run their checks in different orders and raise different exceptions.
These differences show up in the contracts:
- `FilmController.addFilm` checks for an existing id before checking for a negative id;
- the user controllers check in the opposite order;
- the invariant makes the two orders give the same outcome, and `AddFilm`'s contract states this;
- the instance `UserController` has no negative-id check on replace, so such an id ends on the missing-id branch.

Identifiers and dates, as the code handles them:
- No controller assigns ids. A `Film` takes its id from its static counter when it is constructed, and a `User` id is whatever the caller supplies.
- Create rejects a colliding id in all three controllers.
- `Film.java` stores `java.util.Date`/`Duration` and does not carry `@IsAfter`. The validator is therefore modelled on its own, with the 1895-12-28 floor that the film tests pin.

`Dates.IsBefore` follows `LocalDate.isBefore`, which compares the year, then the month, then the day.
`Dates.EpochDay` follows `LocalDate.toEpochDay`. For negative years Java uses truncating division, and that agrees with the floor division written here.

## Model

| member | source | states |
|---|---|---|
| `FilmControllerModel.FilmController.constructor` | src/main/java/ru/yandex/practicum/filmorate/controller/FilmController.java:21 | the static map starts empty and satisfies the keys-non-negative, keyed-by-own-id invariant |
| `FilmControllerModel.FilmController.GetAllFilms` | src/main/java/ru/yandex/practicum/filmorate/controller/FilmController.java:28-31 | returns exactly the stored films, one per entry (no two entries share a film), each stored under its own id; the map is not modified |
| `FilmControllerModel.FilmController.AddFilm` | src/main/java/ru/yandex/practicum/filmorate/controller/FilmController.java:38-56 | an existing id fails with a validation error (existing-id cause); a negative id fails with the negative-id cause; a failure leaves the map unchanged; success iff id >= 0 and absent, then the map is the old map plus id ↦ film, its size grows by one and the stored film is returned; the invariant is preserved |
| `FilmControllerModel.FilmController.UpdateFilm` | src/main/java/ru/yandex/practicum/filmorate/controller/FilmController.java:63-77 | the key set never changes; an absent id fails with a validation error (not-found cause) and changes nothing; a present id has its value replaced by the film, which is returned; the invariant is preserved |
| `UserControllerStatic.UserController.constructor` | src/main/java/ru/yandex/practicum/filmorate/controller/UserController.java:17 | the static map starts empty and satisfies the invariant |
| `UserControllerStatic.UserController.GetAllUsers` | src/main/java/ru/yandex/practicum/filmorate/controller/UserController.java:24-27 | returns exactly the stored users, one per entry, each under its own id; no mutation |
| `UserControllerStatic.UserController.AddUser` | src/main/java/ru/yandex/practicum/filmorate/controller/UserController.java:36-54 | a negative id fails first (negative-id cause), then an existing id (existing-id cause), both leaving the map unchanged; success iff id >= 0 and absent, storing exactly id ↦ user, growing the map by one and returning the user |
| `UserControllerStatic.UserController.UpdateUser` | src/main/java/ru/yandex/practicum/filmorate/controller/UserController.java:63-81 | a negative id fails with a validation error before the existence check; an absent id fails with a validation error (not an IdentifierDoesNotExist); failures change nothing; the key set never changes; success iff the id is present, overwriting only that value and returning the user |
| `UserControllerInstance.UserController.constructor` | src/main/java/ru/yandex/practicum/filmorate/controller/usercontroller/UserController.java:24 | the per-instance map starts empty and satisfies the invariant |
| `UserControllerInstance.UserController.GetAllUsers` | src/main/java/ru/yandex/practicum/filmorate/controller/usercontroller/UserController.java:31-34 | returns exactly the stored users, one per entry, each under its own id; no mutation |
| `UserControllerInstance.UserController.AddUser` | src/main/java/ru/yandex/practicum/filmorate/controller/usercontroller/UserController.java:43-63 | negative id, then existing id, each a validation error leaving the map unchanged; otherwise stores exactly id ↦ user, grows the map by one and returns the user |
| `UserControllerInstance.UserController.UpdateUser` | src/main/java/ru/yandex/practicum/filmorate/controller/usercontroller/UserController.java:72-86 | an absent id fails with IdentifierDoesNotExist (a kind distinct from a validation error) and inserts nothing; a negative id always takes that branch; the key set never changes; a present id is overwritten and exactly the submitted user is returned |
| `FilmModel.Counter.constructor` | src/main/java/ru/yandex/practicum/filmorate/model/Film.java:17 | the counter starts at 1 with nothing issued |
| `FilmModel.Counter.NewFilm` | src/main/java/ru/yandex/practicum/filmorate/model/Film.java:22-42 | the new film's id is the counter's previous value and its other fields are the arguments; the counter advances by one with `long` wrap-around; while no overflow occurs, the counter stays one past every issued id and the id is at least 1 |
| `FilmControllerModel.PostNewFilm` | src/main/java/ru/yandex/practicum/filmorate/controller/FilmController.java:39-50 | a film freshly constructed from the counter and handed to addFilm is always accepted: the stored and returned film carries the counter's previous value as id and the given fields, the counter advances by one and records that id, provided every stored key came from the counter and the counter has not overflowed; afterwards every key still came from the counter and both invariants hold |
| `FilmModel.IssuedIdsAreOneToN` | src/main/java/ru/yandex/practicum/filmorate/model/Film.java:17-22 | the i-th construction receives id i + 1; the first film gets id 1 |
| `FilmModel.IssuedIdsIncreasing` | src/main/java/ru/yandex/practicum/filmorate/model/Film.java:17-22 | ids of successive films strictly increase, so they are pairwise distinct; each lies in 1..counter-1 |
| `FilmModel.NextIdIsFresh` | src/main/java/ru/yandex/practicum/filmorate/model/Film.java:22 | if every key of a repository is an issued id, the next film's id is not a key and is at least 1, so it passes both checks of addFilm |
| `JavaLang.Inc` | src/main/java/ru/yandex/practicum/filmorate/model/Film.java:22 | `counter++` on a `long`: one more, except that the largest `long` wraps to the smallest |
| `Store.KeyedValuesDistinct` | src/main/java/ru/yandex/practicum/filmorate/controller/FilmController.java:50 | in a map where every entity is stored under its own id, the values have as many elements as the map has entries |
| `IsAfterValidation.IsAfterValidator.constructor` | src/main/java/util/validators/isafter/IsAfterValidator.java:18-20 | the implicit constructor leaves the annotation field null (`None`) |
| `IsAfterValidation.IsAfterValidator.Initialize` | src/main/java/util/validators/isafter/IsAfterValidator.java:22-25 | records the annotation and nothing else |
| `IsAfterValidation.IsAfterValidator.IsValid` | src/main/java/util/validators/isafter/IsAfterValidator.java:27-35 | a null date is invalid, even before initialisation; otherwise valid iff the date is not before the floor, equivalently iff its epoch day is at least the floor's; changes no state |
| `IsAfterValidation.AdmitsUpwardClosed` | src/main/java/util/validators/isafter/IsAfterValidator.java:34 | a date no earlier than an admitted date is admitted, so there is no upper bound |
| `IsAfterValidation.FloorIsLeastAdmitted` | src/main/java/util/validators/isafter/IsAfterValidator.java:34 | the floor itself is admitted; a date is admitted iff its epoch day is at least the floor's; the floor is the only admitted date with that epoch day |
| `IsAfterValidation.CinemaBirthdayBoundary` | src/test/java/ru/yandex/practicum/filmorate/model/FilmTest.java:13-25 | with floor 1895-12-28: that day and 1995-01-14 are accepted and 1895-12-27 and 1800-01-01 are rejected (FilmTest.java:13-25, written against a `Film` constructor that takes a `LocalDate`, which the modelled `Film.java` does not have); a far-future date is accepted (FilmControllerTest.java:245-247); null is rejected (IsAfterValidator.java:29) |
| `Dates.IsBeforeIffEarlierEpochDay` | src/main/java/util/validators/isafter/IsAfterValidator.java:34 | on calendar dates, year-month-day lexicographic `isBefore` holds iff the epoch-day count is smaller |
| `Dates.EpochDayInjective` | src/main/java/util/validators/isafter/IsAfterValidator.java:34 | two calendar dates have the same epoch day iff they are equal |
| `Dates.IsBeforeStrictTotalOrder` | src/main/java/util/validators/isafter/IsAfterValidator.java:34 | `isBefore` is irreflexive, asymmetric, transitive and total on distinct dates |

## Left out

- Spring MVC routing, `@RequestBody`/`@Valid` dispatch and the mapping of exceptions to HTTP status codes are framework behaviour. Errors are a `Result` value instead.
- JSON (de)serialisation is not modelled. This includes the truncation of a fractional `duration`, which happens in the deserialiser.
- The parsing of the annotation's `value` with the `format` pattern (`DateTimeFormatter.ofPattern`, `LocalDate.parse`) is a library call. `IsAfter` carries the parsed floor, so a floor string that fails to parse is not modelled.
- The declarative constraints on name, description, duration, email, login and birthday are not modelled. So is the user name falling back to the login. No main source file implements any of them.
- Logging and exception message texts are not modelled. The guard that raised a `ValidationException` is kept as its `Cause`.
- Concurrent access to the shared `HashMap` is not modelled, because the code has no synchronisation. Calls are sequential.
- Static state is one object per class: one `FilmController`, one `UserControllerStatic.UserController` and one `FilmModel.Counter` stand for the process-wide maps and counter.
- `getAllFilms`/`getAllUsers` return a live `values()` view. The model returns a set snapshot taken at the call.
- Null entities and null entity fields are not modelled. The only null that is modelled is the `LocalDate` given to the validator.
- IsAfterValidation.IsAfterValidator.IsValid: it requires `initialize` to have run before a non-null date is validated. The validation framework always calls `initialize` first. Called before it, the source throws a `NullPointerException` at `isAfter.format()`, and the model does not cover that case.
- FilmModel.Counter.NewFilm: its guarantee that ids are 1..n and that the counter exceeds them holds only while the counter is below `Long.MAX_VALUE`. After 2^63 - 1 constructions `Inc` wraps the counter to a negative value, and the model proves nothing about ids after that.
