# NewPipe facade: service registry and localization state

This project models `NewPipe`, the process-wide facade of the NewPipe
extractor library. The facade has two parts.

- **Service registry lookups** (module `Registry`, `registry.dfy`). The
  lookups are `getService(int)`, `getService(String)`, `getServiceByUrl`,
  `getIdOfService` and `getNameOfService`. Each is a first-match-wins scan
  over the registered services in registration order.
  - The registry is an arbitrary `seq<Service>`. A service is its id, its
    name and an arbitrary URL classifier `string -> LinkType`. Java's
    `LinkType.NONE` is written `NoMatch`.
  - The three throwing lookups return a `Result`. Their failure carries the
    argument named in the `ExtractionException` message of NewPipe.java.
  - `getIdOfService` falls back to `-1` and `getNameOfService` to
    `"<unknown>"`.
- **Localization state** (module `Facade`, `facade.dfy`). Three static
  fields become one explicit `State` value: the downloader, the preferred
  localization and the preferred content country. Each may be null, which
  the model writes as `Option`.
  - Each operation is a function. `init(d)` and `init(d, l, c)` build a
    new state from their arguments alone; the two setters map a state to a
    state. `init(d, l)` and both `setupLocalization` overloads return a
    `Completion`: the new state, and whether the call threw.
  - The two getters are total and substitute the defaults for null.
  - A call sequence (`Run`) ties the operations together. `Run` lets an
    exception escape: the first `NullPointerException` ends the sequence. A
    caller that catches it and continues from the half-assigned state is
    not modelled by `Run`.
- **Country derivation** (module `Locale`, `locale.dfy`). `CountryOf` holds
  the one rule that derives a content country from a localization. Both
  `init(d, l)` and `setupLocalization(l, null)` use it.

A null localization is dereferenced in two places: `init(d, null)` and
`setupLocalization(null, null)`. Both throw a `NullPointerException` only
after assigning some fields. The model keeps this: `Completion.NullPointer`
carries the state as the partial assignment left it.

## Model

| member | source | states |
|---|---|---|
| Registry.FirstIndex | extractor/src/main/java/org/schabi/newpipe/extractor/NewPipe.java:75-79 | the scan stops at the first service satisfying the test, every earlier service fails it, and it runs off the end only when none passes |
| Registry.ServiceById | extractor/src/main/java/org/schabi/newpipe/extractor/NewPipe.java:74-81 | succeeds exactly when some service has the id; the result is the first such service in registry order; otherwise fails with the no-service-with-id error |
| Registry.ServiceByName | extractor/src/main/java/org/schabi/newpipe/extractor/NewPipe.java:83-90 | succeeds exactly when some service has exactly that name; the result is the first such service; otherwise fails with the no-service-with-name error |
| Registry.ServiceByUrl | extractor/src/main/java/org/schabi/newpipe/extractor/NewPipe.java:92-99 | succeeds exactly when some service classifies the URL as other than NONE; the result is the first such service, and every earlier one says NONE; otherwise fails with the no-service-for-url error |
| Registry.IdOfService | extractor/src/main/java/org/schabi/newpipe/extractor/NewPipe.java:101-107 | never fails; the id of the first service with that name, or -1 when no service has it |
| Registry.NameOfService | extractor/src/main/java/org/schabi/newpipe/extractor/NewPipe.java:109-117 | never fails; the name of the first service with that id, or "<unknown>" when no service has it |
| Registry.ServiceByOwnId | extractor/src/main/java/org/schabi/newpipe/extractor/NewPipe.java:74-81 | with unique ids, looking a registered service up by its own id returns that same service (left inverse of registration) |
| Registry.ServiceByOwnName | extractor/src/main/java/org/schabi/newpipe/extractor/NewPipe.java:83-90 | with unique names, looking a registered service up by its own name returns that same service |
| Registry.NameIdNameRoundTrip | extractor/src/main/java/org/schabi/newpipe/extractor/NewPipe.java:101-117 | for a registered name, name to id to name gives the name back; this needs only unique ids |
| Registry.IdNameIdRoundTrip | extractor/src/main/java/org/schabi/newpipe/extractor/NewPipe.java:101-117 | for a registered id, id to name to id gives the id back; this needs only unique names |
| Registry.UnknownIdMeansAbsent | extractor/src/main/java/org/schabi/newpipe/extractor/NewPipe.java:101-107 | when no service uses id -1, the result -1 means exactly that the name is not registered (both directions) |
| Registry.UnknownNameMeansAbsent | extractor/src/main/java/org/schabi/newpipe/extractor/NewPipe.java:109-117 | when no service is named "<unknown>", that result means exactly that the id is not registered (both directions) |
| Registry.FirstIndexAppend | extractor/src/main/java/org/schabi/newpipe/extractor/NewPipe.java:75-79 | on a concatenated sequence, a match in the first part stays the first match; otherwise the scan continues into the second part |
| Registry.DispatchStableUnderAppend | extractor/src/main/java/org/schabi/newpipe/extractor/NewPipe.java:92-99 | registering more services after the existing ones never changes where an already-claimed URL is dispatched |
| Registry.DispatchToSoleClaimant | extractor/src/main/java/org/schabi/newpipe/extractor/NewPipe.java:92-99 | if exactly one service claims a URL, dispatch returns that service whatever its position |
| Locale.CountryOf | extractor/src/main/java/org/schabi/newpipe/extractor/NewPipe.java:52-53 | the derived country has the localization's country code when it names one, and is the default country when the code is empty; its code is never empty |
| Facade.PreferredLocalization | extractor/src/main/java/org/schabi/newpipe/extractor/NewPipe.java:141-144 | total: the stored localization, or the default when none is stored |
| Facade.PreferredContentCountry | extractor/src/main/java/org/schabi/newpipe/extractor/NewPipe.java:150-153 | total: the stored country, or the default when none is stored |
| Facade.Init | extractor/src/main/java/org/schabi/newpipe/extractor/NewPipe.java:43-47 | installs the downloader; both getters then read the defaults and both fields are set, whatever the earlier state |
| Facade.InitWithLocalization | extractor/src/main/java/org/schabi/newpipe/extractor/NewPipe.java:49-54 | installs the downloader and the localization; the country getter then reads the country the localization implies; a null localization throws, and the country stays as it was |
| Facade.InitWithAll | extractor/src/main/java/org/schabi/newpipe/extractor/NewPipe.java:56-60 | installs all three values exactly as given, nulls included; the getters read them back, or the defaults for nulls |
| Facade.SetupLocalization | extractor/src/main/java/org/schabi/newpipe/extractor/NewPipe.java:127-139 | never touches the downloader; an explicit country wins; with a null country the country follows the localization; it throws exactly when both are null, and then keeps the old country |
| Facade.SetupLocalizationDerived | extractor/src/main/java/org/schabi/newpipe/extractor/NewPipe.java:123-125 | never touches the downloader and always stores the given localization; it throws exactly for a null localization, and then keeps the old country; otherwise both getters read the localization and the country it implies |
| Facade.SetPreferredLocalization | extractor/src/main/java/org/schabi/newpipe/extractor/NewPipe.java:146-148 | changes only the localization; downloader and country are untouched |
| Facade.SetPreferredContentCountry | extractor/src/main/java/org/schabi/newpipe/extractor/NewPipe.java:155-157 | changes only the country; downloader and localization are untouched |
| Facade.UninitializedReadsDefaults | extractor/src/main/java/org/schabi/newpipe/extractor/NewPipe.java:141-153 | before any init, when every field is still null, both getters still answer, each with its default |
| Facade.InitWithLocalizationIsSetup | extractor/src/main/java/org/schabi/newpipe/extractor/NewPipe.java:49-54 | init(d, l) equals installing d and then calling setupLocalization(l), including the state a null l leaves behind |
| Facade.InitIsInitWithDefaults | extractor/src/main/java/org/schabi/newpipe/extractor/NewPipe.java:43-60 | init(d) equals init(d, DEFAULT, DEFAULT) |
| Facade.InitWithLocalizationIsInitWithAll | extractor/src/main/java/org/schabi/newpipe/extractor/NewPipe.java:49-60 | for a non-null l, init(d, l) equals init(d, l, c), where c is the country l implies |
| Facade.SetupWithCountryIsSetters | extractor/src/main/java/org/schabi/newpipe/extractor/NewPipe.java:127-157 | with an explicit country, setupLocalization(l, c) equals the two setters applied in either order |
| Facade.GetAfterSet | extractor/src/main/java/org/schabi/newpipe/extractor/NewPipe.java:141-157 | each getter reads back what its setter stored; a setter does not change the other getter's answer |
| Facade.SettersLastWriteWinsAndCommute | extractor/src/main/java/org/schabi/newpipe/extractor/NewPipe.java:146-157 | setting a field twice keeps only the last value; the two setters commute |
| Facade.RunWithoutInitKeepsDownloader | extractor/src/main/java/org/schabi/newpipe/extractor/NewPipe.java:123-157 | any sequence of setup/setter calls, even one that throws, leaves the downloader as it was |
| Facade.RunAppend | extractor/src/main/java/org/schabi/newpipe/extractor/NewPipe.java:43-157 | running two call sequences back to back is running the first, then the second from its final state, unless the first threw |
| Facade.RunEndingInInitReadsDefaults | extractor/src/main/java/org/schabi/newpipe/extractor/NewPipe.java:43-47 | after init(d) ends a run, both getters read the defaults, whatever calls came before |

## Left out

- `getDownloader` (NewPipe.java:62-64) is not modelled as a separate function. It only returns the field, which `State.downloader` holds. The network behaviour of the `Downloader` is outside this model.
- `getServices` (NewPipe.java:70-72) is not modelled as a separate function: it returns `ServiceList.all()`. Here that list is the `reg` parameter of every lookup.
- `ServiceList.java`, `StreamingService.java`, `Localization.java` and `ContentCountry.java` are not part of this model. The registry's contents and each service's URL classifier are arbitrary.
  - `DefaultLocalization` ("en", "GB") and `DefaultContentCountry` ("GB") stand in for the `DEFAULT` constants. No lemma depends on their codes; `CountryOf` only needs the default code to be non-empty.
- Registry.ServiceById, Registry.ServiceByName and Registry.ServiceByUrl: the failure carries the offending argument, not the formatted message text.
- Registry.ServiceByName, Registry.IdOfService and Registry.ServiceByUrl take a non-null string. A null name never matches in NewPipe.java, so its result equals that of a name no service has. A null URL is handed to the per-service classifiers, which are outside this model.
- Registry.ServiceByUrl: the per-service classifiers are modelled as total and never throwing. In NewPipe.java:94 a classifier that throws ends the scan with that exception, and later services are not asked. The "fails exactly when every service says NONE" statement holds only for classifiers that do not throw.
- Registry.NameOfService: the `System.err` line and the stack trace printed on failure are I/O and are not modelled. Only the returned value is.
- The static fields are not synchronized in NewPipe.java. The model is sequential, and concurrent use is out of scope.
