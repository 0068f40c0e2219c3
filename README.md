# Controller configuration defaults and latest-event lookup

A Dafny model of two small pieces of a Kubernetes controller framework
(java-operator-sdk):

- **`AnnotationConfiguration`**, the per-controller configuration read from a
  controller's `@Controller` declaration. Each getter falls back to a fixed
  default when the controller has no declaration: the finalizer name falls
  back to a name derived from the custom resource definition (also when the
  declared name is blank), generation awareness to `true`, the namespaces to
  the empty set, the label selector to `""`. `getEventFilter` instantiates the
  declared filter classes in order and folds them into one filter, giving the
  passthrough filter when none is declared.
- **`EventList.getLatestOfType`**, as its unit test pins it down. The query
  returns the event of the requested kind that was inserted last, judged by
  list position and not by payload.

Files:

- `wrappers.dfy` (module `Wrappers`): `Option`, `Result` and the
  `Optional.map/filter/orElse` combinators the getters are written with.
- `config.dfy` (module `Config`): the declaration and filter datatypes,
  `Set.of`, the instantiation and fold of the filters, and the class
  `AnnotationConfiguration`. Its declaration and its collaborators are
  `const` fields set by the constructor. The configuration service is its one
  mutable field.
- `events.dfy` (module `Events`): events, `EventList`, the recursive query and
  lemmas about it, including the unit test's scenario.

Inputs the model takes instead of computing them:

- The reflective annotation lookup is the `declaration: Option<ControllerDecl>`
  of a `ResourceController` record.
- The custom resource definition's name (`getCRDName()`) is that record's `crdName`.
- `ControllerUtils.getDefaultFinalizerName` is the function-valued constructor
  argument `defaultFinalizerName`.
- Reflective construction of a filter is the function-valued constructor
  argument `newInstance`. It returns a filter, or the exception it raised.

## Model

| member | source | states |
|---|---|---|
| `Config.AnnotationConfiguration.constructor` | operator-framework/src/main/java/io/javaoperatorsdk/operator/config/runtime/AnnotationConfiguration.java:23-26 | the configuration keeps the controller and the declaration found on it (none if absent); no configuration service is set yet |
| `Config.AnnotationConfiguration.GetFinalizer` | operator-framework/src/main/java/io/javaoperatorsdk/operator/config/runtime/AnnotationConfiguration.java:34-38 | the declared finalizer name when a declaration exists and that name is not blank (Java `String.isBlank`, so all-whitespace counts as blank); otherwise the default finalizer name for the custom resource definition's name |
| `Config.AnnotationConfiguration.IsGenerationAware` | operator-framework/src/main/java/io/javaoperatorsdk/operator/config/runtime/AnnotationConfiguration.java:42-44 | `true` without a declaration; otherwise exactly the declared flag |
| `Config.AnnotationConfiguration.GetNamespaces` | operator-framework/src/main/java/io/javaoperatorsdk/operator/config/runtime/AnnotationConfiguration.java:52-54 | the empty set without a declaration; otherwise succeeds iff the declared namespaces are pairwise distinct, and then holds exactly them; a repeated namespace fails naming the first repeated entry |
| `Config.SetOf` | operator-framework/src/main/java/io/javaoperatorsdk/operator/config/runtime/AnnotationConfiguration.java:53 | `Set.of` on an array: succeeds iff the elements are distinct, and then gives the set of the elements with as many members as the array has entries; otherwise fails with the element at the first position that repeats an earlier one |
| `Config.AnnotationConfiguration.GetLabelSelector` | operator-framework/src/main/java/io/javaoperatorsdk/operator/config/runtime/AnnotationConfiguration.java:57-59 | `""` without a declaration; otherwise the declared selector unchanged |
| `Config.AnnotationConfiguration.SetConfigurationService` | operator-framework/src/main/java/io/javaoperatorsdk/operator/config/runtime/AnnotationConfiguration.java:62-69 | afterwards `GetConfigurationService()` returns the service just set (null included); the only mutable field is the service, so nothing else changes |
| `Config.Instantiate` | operator-framework/src/main/java/io/javaoperatorsdk/operator/config/runtime/AnnotationConfiguration.java:83-85 | instantiating the declared filter types in order succeeds iff every type can be instantiated, giving one instance per type in declaration order; otherwise it fails with the exception of the first type that cannot be |
| `Config.AnnotationConfiguration.GetEventFilter` | operator-framework/src/main/java/io/javaoperatorsdk/operator/config/runtime/AnnotationConfiguration.java:78-101 | the loop's result is `EventFilterOf` of the declared filter types (none without a declaration): the instances folded as written, passthrough when nothing was declared, the first instantiation failure wrapped in a runtime exception |
| `Config.EventFilterOfTable` | operator-framework/src/main/java/io/javaoperatorsdk/operator/config/runtime/AnnotationConfiguration.java:79-100 | passthrough for an empty list of filter types; fails iff some type cannot be instantiated, with the first such type's exception wrapped in a runtime exception; one type gives its instance; two or more give the last instance ANDed with itself |
| `Config.InstantiateFailsAtFirst` | operator-framework/src/main/java/io/javaoperatorsdk/operator/config/runtime/AnnotationConfiguration.java:84-94 | when a type is the first one that cannot be instantiated, the whole instantiation fails with exactly that type's exception, whatever follows it |
| `Config.ComposeAsWrittenShape` | operator-framework/src/main/java/io/javaoperatorsdk/operator/config/runtime/AnnotationConfiguration.java:87-91 | the loop's fold as written gives nothing for no filters, the filter itself for one, and `last.and(last)` for two or more |
| `Config.ComposeAsWrittenDropsFirst` | operator-framework/src/main/java/io/javaoperatorsdk/operator/config/runtime/AnnotationConfiguration.java:90 | with two or more filters, a first user filter that the last filter does not contain is absent from the composed filter |
| `Config.ComposeAsWrittenTwoFilters` | operator-framework/src/main/java/io/javaoperatorsdk/operator/config/runtime/AnnotationConfiguration.java:90 | filters A then B compose to `B and B` as written, and to `A and B` under the intended fold |
| `Config.ComposeIntendedKeepsAll` | operator-framework/src/main/java/io/javaoperatorsdk/operator/config/runtime/AnnotationConfiguration.java:87-91 | the intended fold (`answer.and(filter)`) yields a filter iff one was declared, contains every declared filter, and has the last declared filter as the right operand of its outermost AND |
| `Config.ComposeAgreesUpToOne` | operator-framework/src/main/java/io/javaoperatorsdk/operator/config/runtime/AnnotationConfiguration.java:87-91 | the fold as written and the intended fold agree on zero or one filter |
| `Events.LatestOfType` | operator-framework-core/src/test/java/io/javaoperatorsdk/operator/processing/event/EventListTest.java:21 | the query yields an event iff the list holds an event of the kind, and the event it yields is an element of the list and has that kind |
| `Events.GetLatestOfType` | operator-framework-core/src/test/java/io/javaoperatorsdk/operator/processing/event/EventListTest.java:17-21 | on an event list built from a list: present iff some event of the list has the kind; the result is an event of that list with that kind |
| `Events.LatestIsAtHighestIndex` | operator-framework-core/src/test/java/io/javaoperatorsdk/operator/processing/event/EventListTest.java:16-21 | when position i holds the last event of the kind, the query yields the event at i |
| `Events.LatestIsLastOfKind` | operator-framework-core/src/test/java/io/javaoperatorsdk/operator/processing/event/EventListTest.java:21 | the query equals the last element of the list's events of that kind taken in order, and nothing when there are none |
| `Events.AppendEvent` | operator-framework-core/src/test/java/io/javaoperatorsdk/operator/processing/event/EventListTest.java:17-19 | appending an event of the kind makes it the answer; appending one of another kind leaves the answer unchanged |
| `Events.EarlierEventsIrrelevant` | operator-framework-core/src/test/java/io/javaoperatorsdk/operator/processing/event/EventListTest.java:19-21 | once the later part of the list holds an event of the kind, events inserted before that part do not change the answer |
| `Events.ReturnsLatestOfEventType` | operator-framework-core/src/test/java/io/javaoperatorsdk/operator/processing/event/EventListTest.java:14-22 | for any two events of other kinds around `TimerEvent("2")` then `TimerEvent("1")`, the list keeps that order and the query for timer events returns `TimerEvent("1")`, not `TimerEvent("2")`; the trailing event is skipped |
| `Events.LatestFollowsInsertionOrder` | operator-framework-core/src/test/java/io/javaoperatorsdk/operator/processing/event/EventListTest.java:17-21 | with the two timer events inserted the other way round, the query returns `TimerEvent("2")`: the answer follows insertion order, not payload |

## Findings

| source | as written | input that shows it | evidently intended | confidence | as-written member | corrected member |
|---|---|---|---|---|---|---|
| operator-framework/src/main/java/io/javaoperatorsdk/operator/config/runtime/AnnotationConfiguration.java:90 | every filter after the first replaces the answer with `filter.and(filter)`, so all but the last declared filter are discarded | declared filters `A`, `B` compose to `B and B` | `answer.and(filter)`, the AND of every declared filter | not executed; high (the variable `answer` is otherwise unused in that branch) | `Config.ComposeAsWrittenDropsFirst` | `Config.ComposeIntendedKeepsAll` |

`GetEventFilter` follows the code as written, so the model shows the
behaviour the framework actually has. The corrected fold `ComposeIntended`
sits beside it, and `ComposeAgreesUpToOne` shows where the two coincide.

## Left out

- `getName`, `getCustomResourceClass` and `getAssociatedControllerClassName`
  (AnnotationConfiguration.java:29-31, 47-49, 72-74) only delegate to
  `ControllerUtils.getNameFor`, `RuntimeControllerMetadata` and
  `Class.getCanonicalName`. Those bodies are not part of this model.
- Java reflection: the annotation lookup and the no-argument-constructor
  instantiation are given inputs, not type introspection. `newInstance` is a
  function, so it gives the same answer for a type on every call.
- What a filter decides about an event, including the meaning of `and` and
  `passthrough`. Filters are modelled by shape only.
- The `EventList` class itself is not part of this model. Its query is modelled
  as its unit test pins it down: a backward scan by list position.
- Event kinds are compared by exact class. Subclass matching, Mockito mocks and
  the timer event's event-source argument are not modelled.
- Strings are sequences of Unicode scalar values, not UTF-16 code units.
  `IsWhitespace` follows `Character.isWhitespace` on code points.
- The dispatch machinery (worker pool, per-resource locking, timers, retries,
  writes to the cluster) is concurrency and I/O and is not modelled.
