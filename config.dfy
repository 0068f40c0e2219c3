/** Per-controller configuration read from a controller's declaration
    (AnnotationConfiguration): every getter falls back to a fixed default when
    the controller carries no declaration, and the declared event-filter types
    are instantiated and folded into one filter. */
module Config {
  import opened Wrappers

  /** The class of an event-filter implementation, as listed in a declaration. */
  datatype FilterType = FilterType(className: string)

  /** A CustomResourceEventFilter value. Only its shape is modelled: what the
      filters decide about an event is not part of this model. */
  datatype EventFilter =
    | Passthrough                                   // CustomResourceEventFilters.passthrough()
    | Custom(filterType: FilterType)                // an instance of a user filter class
    | And(first: EventFilter, second: EventFilter)  // first.and(second)

  /** The declaration a controller class carries (the @Controller annotation). */
  datatype ControllerDecl = ControllerDecl(
    finalizerName: string,
    generationAwareEventProcessing: bool,
    namespaces: seq<string>,
    labelSelector: string,
    eventFilters: seq<FilterType>)

  /** What the configuration learns about the controller object: its
      declaration, if any (the result of the reflective annotation lookup), and
      the name of the custom resource definition it reconciles. */
  datatype ResourceController = ResourceController(declaration: Option<ControllerDecl>, crdName: string)

  /** The exception reflective construction of a filter raised. */
  datatype ReflectiveError = ReflectiveError(exceptionClass: string)

  datatype ConfigError =
    | RuntimeException(cause: ReflectiveError)  // a filter type could not be instantiated
    | DuplicateElement(element: string)         // IllegalArgumentException from Set.of

  /** Stands for the operator-wide configuration service; only its identity matters here. */
  class ConfigurationService { }

  /** Character.isWhitespace: Unicode space, line and paragraph separators other
      than the three non-breaking spaces, plus the ASCII controls U+0009-U+000D
      and U+001C-U+001F. */
  predicate IsWhitespace(c: char)
  {
    c == ' ' || ('\t' <= c <= '\r') || ('\U{1C}' <= c <= '\U{1F}') ||
    c == '\U{1680}' || ('\U{2000}' <= c <= '\U{2006}') || ('\U{2008}' <= c <= '\U{200A}') ||
    c == '\U{2028}' || c == '\U{2029}' || c == '\U{205F}' || c == '\U{3000}'
  }

  /** String.isBlank: empty or whitespace only. */
  predicate IsBlank(s: string)
  {
    forall i :: 0 <= i < |s| ==> IsWhitespace(s[i])
  }

  predicate Distinct(s: seq<string>)
  {
    forall i, j :: 0 <= i < j < |s| ==> s[i] != s[j]
  }

  /** j is the first position whose element already occurred before it. */
  predicate FirstDuplicateAt(s: seq<string>, j: int)
  {
    0 <= j < |s| && s[j] in s[..j] && Distinct(s[..j])
  }

  /** Set.of(E...): the set of the given elements; it rejects the first element
      equal to one before it with an IllegalArgumentException. */
  function SetOf(elements: seq<string>): (r: Result<set<string>, ConfigError>)
    ensures r.Success? <==> Distinct(elements)
    ensures r.Success? ==> r.value == (set x | x in elements) && |r.value| == |elements|
    ensures r.Failure? ==>
      exists j :: FirstDuplicateAt(elements, j) && r.error == DuplicateElement(elements[j])
  {
    if elements == [] then Success({})
    else
      var n := |elements| - 1;
      var prefix, x := elements[..n], elements[n];
      assert elements == prefix + [x];
      match SetOf(prefix)
      case Failure(e) =>
        var j :| FirstDuplicateAt(prefix, j) && e == DuplicateElement(prefix[j]);
        assert elements[..j] == prefix[..j];
        assert FirstDuplicateAt(elements, j);
        Failure(e)
      case Success(seen) =>
        if x in seen then
          assert FirstDuplicateAt(elements, n);
          Failure(DuplicateElement(x))
        else
          assert (set y | y in elements) == seen + {x};
          Success(seen + {x})
  }

  /** The first filter type (by position) whose instantiation fails is at k. */
  predicate FirstFailureAt(types: seq<FilterType>, newInstance: FilterType -> Result<EventFilter, ReflectiveError>, k: int)
  {
    0 <= k < |types| && newInstance(types[k]).Failure? &&
    forall j :: 0 <= j < k ==> newInstance(types[j]).Success?
  }

  /** Instantiates every filter type in order; the first failure aborts. */
  function Instantiate(types: seq<FilterType>, newInstance: FilterType -> Result<EventFilter, ReflectiveError>)
    : (r: Result<seq<EventFilter>, ReflectiveError>)
    ensures r.Success? <==> forall k :: 0 <= k < |types| ==> newInstance(types[k]).Success?
    ensures r.Success? ==>
      |r.value| == |types| && forall k :: 0 <= k < |types| ==> r.value[k] == newInstance(types[k]).value
    ensures r.Failure? ==>
      exists k :: FirstFailureAt(types, newInstance, k) && r.error == newInstance(types[k]).error
  {
    if types == [] then Success([])
    else
      var n := |types| - 1;
      var prefix, last := types[..n], types[n];
      assert types == prefix + [last];
      match Instantiate(prefix, newInstance)
      case Failure(e) =>
        var k :| FirstFailureAt(prefix, newInstance, k) && e == newInstance(prefix[k]).error;
        assert FirstFailureAt(types, newInstance, k);
        Failure(e)
      case Success(filters) =>
        match newInstance(last)
        case Failure(e) =>
          assert FirstFailureAt(types, newInstance, n);
          Failure(e)
        case Success(f) =>
          assert forall k :: 0 <= k < n ==> (filters + [f])[k] == filters[k];
          Success(filters + [f])
  }

  /** One turn of the loop at AnnotationConfiguration.java:87-91 as written:
      every filter after the first replaces the answer with filter.and(filter). */
  function StepAsWritten(answer: Option<EventFilter>, filter: EventFilter): EventFilter
  {
    if answer.None? then filter else And(filter, filter)
  }

  /** The fold of the loop as written; None when no filter was declared. */
  function ComposeAsWritten(filters: seq<EventFilter>): Option<EventFilter>
  {
    if filters == [] then None
    else Some(StepAsWritten(ComposeAsWritten(filters[..|filters| - 1]), filters[|filters| - 1]))
  }

  /** The evidently intended turn of the loop: answer.and(filter). */
  function StepIntended(answer: Option<EventFilter>, filter: EventFilter): EventFilter
  {
    if answer.None? then filter else And(answer.value, filter)
  }

  /** The evidently intended fold: the AND of every declared filter, left to right. */
  function ComposeIntended(filters: seq<EventFilter>): Option<EventFilter>
  {
    if filters == [] then None
    else Some(StepIntended(ComposeIntended(filters[..|filters| - 1]), filters[|filters| - 1]))
  }

  /** g occurs in f as f itself or as an operand of one of its ANDs. */
  predicate Mentions(f: EventFilter, g: EventFilter)
  {
    f == g || (f.And? && (Mentions(f.first, g) || Mentions(f.second, g)))
  }

  /** As written, the fold keeps only the last filter: none declared gives
      nothing, one gives that filter, two or more give the last one ANDed with
      itself. */
  lemma ComposeAsWrittenShape(filters: seq<EventFilter>)
    ensures filters == [] ==> ComposeAsWritten(filters) == None
    ensures |filters| == 1 ==> ComposeAsWritten(filters) == Some(filters[0])
    ensures |filters| >= 2 ==>
      ComposeAsWritten(filters) == Some(And(filters[|filters| - 1], filters[|filters| - 1]))
  {
  }

  /** The discrepancy: with two or more filters, a first declared user filter
      is lost whenever the last one does not itself contain it. */
  lemma ComposeAsWrittenDropsFirst(filters: seq<EventFilter>)
    requires |filters| >= 2
    requires filters[0].Custom? && !Mentions(filters[|filters| - 1], filters[0])
    ensures ComposeAsWritten(filters).Some?
    ensures !Mentions(ComposeAsWritten(filters).value, filters[0])
  {
  }

  /** The smallest input that shows it: filters A then B compose to B AND B. */
  lemma ComposeAsWrittenTwoFilters()
    ensures ComposeAsWritten([Custom(FilterType("A")), Custom(FilterType("B"))])
      == Some(And(Custom(FilterType("B")), Custom(FilterType("B"))))
    ensures ComposeIntended([Custom(FilterType("A")), Custom(FilterType("B"))])
      == Some(And(Custom(FilterType("A")), Custom(FilterType("B"))))
  {
  }

  /** The intended fold keeps every declared filter, and the last declared one
      is the right operand of the outermost AND. */
  lemma {:induction false} ComposeIntendedKeepsAll(filters: seq<EventFilter>)
    ensures ComposeIntended(filters).Some? <==> filters != []
    ensures forall k :: 0 <= k < |filters| ==> Mentions(ComposeIntended(filters).value, filters[k])
    ensures |filters| >= 2 ==>
      ComposeIntended(filters).value.And? && ComposeIntended(filters).value.second == filters[|filters| - 1]
  {
    if filters != [] {
      var n := |filters| - 1;
      var prefix := filters[..n];
      ComposeIntendedKeepsAll(prefix);
      forall k | 0 <= k < |filters|
        ensures Mentions(ComposeIntended(filters).value, filters[k])
      {
        if k < n {
          assert filters[k] == prefix[k];
        }
      }
    }
  }

  /** Both folds agree on zero or one filter; they part only from two on. */
  lemma ComposeAgreesUpToOne(filters: seq<EventFilter>)
    requires |filters| <= 1
    ensures ComposeAsWritten(filters) == ComposeIntended(filters)
  {
  }

  /** When k is the first type that cannot be instantiated, instantiating
      the list fails with that type's exception. */
  lemma InstantiateFailsAtFirst(types: seq<FilterType>, newInstance: FilterType -> Result<EventFilter, ReflectiveError>, k: int)
    requires FirstFailureAt(types, newInstance, k)
    ensures Instantiate(types, newInstance) == Failure(newInstance(types[k]).error)
  {
  }

  /** The result of getEventFilter for the declared filter types: the fold of
      their instances as written, the passthrough filter when there are none,
      and the first instantiation failure wrapped in a runtime exception. */
  function EventFilterOf(types: seq<FilterType>, newInstance: FilterType -> Result<EventFilter, ReflectiveError>)
    : Result<EventFilter, ConfigError>
  {
    match Instantiate(types, newInstance)
    case Failure(e) => Failure(RuntimeException(e))
    case Success(filters) => Success(OrElse(ComposeAsWritten(filters), Passthrough))
  }

  /** The decision table of getEventFilter. */
  lemma EventFilterOfTable(types: seq<FilterType>, newInstance: FilterType -> Result<EventFilter, ReflectiveError>)
    ensures types == [] ==> EventFilterOf(types, newInstance) == Success(Passthrough)
    ensures EventFilterOf(types, newInstance).Failure? <==>
      exists k :: 0 <= k < |types| && newInstance(types[k]).Failure?
    ensures forall k :: FirstFailureAt(types, newInstance, k) ==>
      EventFilterOf(types, newInstance) == Failure(RuntimeException(newInstance(types[k]).error))
    ensures EventFilterOf(types, newInstance).Success? && |types| == 1 ==>
      EventFilterOf(types, newInstance).value == newInstance(types[0]).value
    ensures EventFilterOf(types, newInstance).Success? && |types| >= 2 ==>
      var last := newInstance(types[|types| - 1]).value;
      EventFilterOf(types, newInstance).value == And(last, last)
  {
    forall k | FirstFailureAt(types, newInstance, k)
      ensures EventFilterOf(types, newInstance) == Failure(RuntimeException(newInstance(types[k]).error))
    {
      InstantiateFailsAtFirst(types, newInstance, k);
    }
    var r := Instantiate(types, newInstance);
    if r.Success? {
      ComposeAsWrittenShape(r.value);
    }
  }

  class AnnotationConfiguration {
    const controller: ResourceController
    /** The declaration found on the controller, if any. */
    const annotation: Option<ControllerDecl>
    /** ControllerUtils.getDefaultFinalizerName, whose body is not part of this model. */
    const defaultFinalizerName: string -> string
    /** Reflective construction of a filter through its public no-argument constructor. */
    const newInstance: FilterType -> Result<EventFilter, ReflectiveError>
    var service: ConfigurationService?

    constructor (controller: ResourceController, defaultFinalizerName: string -> string,
                 newInstance: FilterType -> Result<EventFilter, ReflectiveError>)
      ensures this.controller == controller && annotation == controller.declaration
      ensures this.defaultFinalizerName == defaultFinalizerName && this.newInstance == newInstance
      ensures service == null
    {
      this.controller := controller;
      this.annotation := controller.declaration;
      this.defaultFinalizerName := defaultFinalizerName;
      this.newInstance := newInstance;
      this.service := null;
    }

    /** The declared finalizer name unless it is blank; otherwise the default
        derived from the custom resource definition's name. */
    function GetFinalizer(): (r: string)
      ensures annotation.Some? && !IsBlank(annotation.value.finalizerName) ==>
        r == annotation.value.finalizerName
      ensures annotation.None? || IsBlank(annotation.value.finalizerName) ==>
        r == defaultFinalizerName(controller.crdName)
    {
      OrElse(FilterOpt(MapOpt(annotation, (d: ControllerDecl) => d.finalizerName), (s: string) => !IsBlank(s)),
             defaultFinalizerName(controller.crdName))
    }

    /** Generation-aware processing is on unless a declaration switches it off. */
    function IsGenerationAware(): (r: bool)
      ensures annotation.None? ==> r
      ensures annotation.Some? ==> r == annotation.value.generationAwareEventProcessing
    {
      OrElse(MapOpt(annotation, (d: ControllerDecl) => d.generationAwareEventProcessing), true)
    }

    /** The declared namespaces as a set, empty without a declaration; a
        namespace declared twice is an IllegalArgumentException. */
    function GetNamespaces(): (r: Result<set<string>, ConfigError>)
      ensures annotation.None? ==> r == Success({})
      ensures annotation.Some? ==>
        (r.Success? <==> Distinct(annotation.value.namespaces)) &&
        (r.Success? ==> forall ns :: ns in r.value <==> ns in annotation.value.namespaces) &&
        (r.Failure? ==> exists j :: FirstDuplicateAt(annotation.value.namespaces, j) &&
                                    r.error == DuplicateElement(annotation.value.namespaces[j]))
    {
      SetOf(OrElse(MapOpt(annotation, (d: ControllerDecl) => d.namespaces), []))
    }

    /** The declared label selector, or the empty selector without a declaration. */
    function GetLabelSelector(): (r: string)
      ensures annotation.None? ==> r == ""
      ensures annotation.Some? ==> r == annotation.value.labelSelector
    {
      OrElse(MapOpt(annotation, (d: ControllerDecl) => d.labelSelector), "")
    }

    function GetConfigurationService(): ConfigurationService?
      reads this
    {
      service
    }

    method SetConfigurationService(service: ConfigurationService?)
      modifies this
      ensures GetConfigurationService() == service
      ensures this.service == service
    {
      this.service := service;
    }

    /** The filter types the declaration lists; none without a declaration. */
    function DeclaredFilterTypes(): seq<FilterType>
    {
      if annotation.Some? then annotation.value.eventFilters else []
    }

    /** Instantiates the declared filter types in order and folds them as the
        source does; no filter declared gives the passthrough filter, and a
        type that cannot be instantiated aborts with that type's exception. */
    method GetEventFilter() returns (r: Result<EventFilter, ConfigError>)
      ensures r == EventFilterOf(DeclaredFilterTypes(), newInstance)
    {
      var answer: Option<EventFilter> := None;
      var filterTypes := MapOpt(annotation, (d: ControllerDecl) => d.eventFilters);
      if filterTypes.Some? {
        var types := filterTypes.value;
        ghost var created: seq<EventFilter> := [];
        for i := 0 to |types|
          invariant types == DeclaredFilterTypes()
          invariant Instantiate(types[..i], newInstance) == Success(created)
          invariant answer == ComposeAsWritten(created)
        {
          var instance := newInstance(types[i]);
          if instance.Failure? {
            assert FirstFailureAt(types, newInstance, i);
            InstantiateFailsAtFirst(types, newInstance, i);
            return Failure(RuntimeException(instance.error));
          }
          var filter := instance.value;
          if answer == None {
            answer := Some(filter);
          } else {
            answer := Some(And(filter, filter));
          }
          assert types[..i + 1][..i] == types[..i];
          created := created + [filter];
        }
        assert types[..|types|] == types;
      }
      r := Success(if answer != None then answer.value else Passthrough);
    }
  }
}
