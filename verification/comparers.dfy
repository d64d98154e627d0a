/** Leaf predicates used when matching elements: the whole-string,
    case-insensitive attribute comparer and the exact-runtime-type comparer. */
module Comparers {
  import opened Wrappers
  import opened Utility

  /** Invalid construction of a comparer (`ArgumentNullException`). */
  datatype ConfigurationError = ArgumentNull

  /** `StringEqualsAndCaseInsensitiveComparer` holding its non-null operand. */
  datatype CaseInsensitiveComparer = CaseInsensitiveComparer(operand: string) {

    /** `ToString` gives back the operand exactly as given. */
    function ToString(): string {
      operand
    }
  }

  /** The constructor: a `null` operand is refused. */
  function NewCaseInsensitiveComparer(operand: Option<string>): (r: Result<CaseInsensitiveComparer, ConfigurationError>)
    ensures r.Failure? <==> operand.None?
    ensures r.Success? ==> r.value.ToString() == operand.value
  {
    match operand
    case None => Failure(ArgumentNull)
    case Some(s) => Success(CaseInsensitiveComparer(s))
  }

  /** `Compare`: a `null` value never matches; otherwise the value matches
      when it equals the operand once both are folded to lower case. */
  function Compare(c: CaseInsensitiveComparer, value: Option<string>): (r: bool)
    ensures r <==> value.Some? && ToLowerInvariant(value.value) == ToLowerInvariant(c.operand)
    ensures r ==> |value.value| == |c.operand|
  {
    value.Some? && EqualsIgnoreCase(value.value, c.operand)
  }

  /** The operand itself always matches, and so does any re-casing of it. */
  lemma OperandMatchesInAnyCase(c: CaseInsensitiveComparer, v: string)
    requires ToLowerInvariant(v) == ToLowerInvariant(c.operand)
    ensures Compare(c, Some(c.operand))
    ensures Compare(c, Some(v))
  {
  }

  /** Matching is whole-string: a proper extension or a proper part of the
      operand never matches. */
  lemma WholeStringOnly(c: CaseInsensitiveComparer, extra: string, k: nat)
    requires |extra| > 0 && k < |c.operand|
    ensures !Compare(c, Some(c.operand + extra))
    ensures !Compare(c, Some(c.operand[..k]))
  {
  }

  /** Swapping operand and value does not change the verdict. */
  lemma CompareIsSymmetric(a: string, b: string)
    ensures Compare(CaseInsensitiveComparer(a), Some(b)) == Compare(CaseInsensitiveComparer(b), Some(a))
  {
  }

  /** The assertions of the comparer's unit tests. */
  lemma CaseInsensitiveComparerCases()
    ensures NewCaseInsensitiveComparer(None).Failure?
    ensures var c := CaseInsensitiveComparer("A test value");
      && Compare(c, Some("A test value"))
      && Compare(c, Some("a test Value"))
      && !Compare(c, Some("A test value 2"))
      && !Compare(c, Some("test"))
      && !Compare(c, Some("completely different"))
      && !Compare(c, Some(""))
      && !Compare(c, None)
      && c.ToString() == "A test value"
    ensures var e := CaseInsensitiveComparer("");
      Compare(e, Some("")) && !Compare(e, Some(" ")) && !Compare(e, None)
  {
  }

  /** No locale enters the fold: a capital I matches a small i, which a
      Turkish-culture lower-casing would map to a dotless i instead. */
  lemma DottedIMatchesWithoutLocale()
    ensures Compare(CaseInsensitiveComparer("I"), Some("i"))
    ensures !Compare(CaseInsensitiveComparer("I"), Some("\U{131}"))
  {
  }

  /** The element wrapper classes a search can ask for by runtime type.
      `ElementsContainer` stands for the whole container family: the plain
      class the attribute bag builds and the generic `ElementsContainer<T>`
      that `Form` and `Span` derive from. */
  datatype ElementVariant = Element | ElementsContainer | Form | Span

  /** The direct base class of each wrapper class; `Element` has none among them. */
  function BaseClass(v: ElementVariant): Option<ElementVariant> {
    match v
    case Element => None
    case ElementsContainer => Some(Element)
    case Form => Some(ElementsContainer)
    case Span => Some(ElementsContainer)
  }

  /** `a` is `b` or derives from it (the relation `is` tests, which `TypeComparer` does not use). */
  predicate IsSubclassOf(a: ElementVariant, b: ElementVariant)
    decreases Depth(a)
  {
    a == b || (BaseClass(a).Some? && IsSubclassOf(BaseClass(a).value, b))
  }

  function Depth(v: ElementVariant): nat {
    match v
    case Element => 0
    case ElementsContainer => 1
    case Form => 2
    case Span => 2
  }

  /** `TypeComparer`, holding the type fixed at construction. */
  datatype TypeComparer = TypeComparer(expected: ElementVariant) {

    /** The stored type, unchanged. */
    function Type(): ElementVariant {
      expected
    }
  }

  /** `TypeComparer.Compare`: the element's runtime class must be exactly the stored one. */
  function CompareType(c: TypeComparer, element: ElementVariant): (r: bool)
    ensures r <==> IsSubclassOf(element, c.Type()) && IsSubclassOf(c.Type(), element)
  {
    element == c.expected
  }

  /** Matching is exact: a subclass instance does not match its base class,
      although it is one by the `is` relation. */
  lemma TypeMatchIsNotSubtyping()
    ensures IsSubclassOf(Form, ElementsContainer) && !CompareType(TypeComparer(ElementsContainer), Form)
    ensures IsSubclassOf(Span, Element) && !CompareType(TypeComparer(Element), Span)
  {
  }

  /** Each comparer accepts one class and only that one. */
  lemma TypeComparerAcceptsOneClass(c: TypeComparer, a: ElementVariant, b: ElementVariant)
    requires CompareType(c, a) && CompareType(c, b)
    ensures a == b
  {
  }
}
