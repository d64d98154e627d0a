/** `ElementAttributeBag`: the attribute reader a constraint uses on a
    candidate element, plus its two lazily built element wrappers. */
module AttributeBag {
  import opened Wrappers
  import opened Utility
  import opened Native
  import opened Caching
  import Comparers

  /** Where `GetValue` reads a name from. */
  datatype AttributeRoute =
    | CssText                          // the whole `style.cssText`
    | StyleProperty(property: string)  // one property of the `style` object
    | PlainAttribute(name: string)     // `getAttribute(name, 0)`

  /** The routing decision of `GetValue`: `style` in any case reads the css
      text; a name whose invariant lower-case form starts with `style.`
      (an ordinal prefix test) reads the style property named by the rest, in its original case;
      anything else is read as an attribute under the name as given. */
  function Route(name: string): (r: AttributeRoute)
    ensures r.CssText? <==> EqualsIgnoreCase(name, "style")
    ensures r.StyleProperty? <==> !EqualsIgnoreCase(name, "style") && "style." <= ToLowerInvariant(name)
    ensures r.StyleProperty? ==> |name| >= 6 && name == name[..6] + r.property
    ensures r.PlainAttribute? ==> r.name == name
  {
    if EqualsIgnoreCase(name, "style") then CssText
    else if "style." <= ToLowerInvariant(name) then StyleProperty(name[6..])
    else PlainAttribute(name)
  }

  /** A `style.` name keeps the case of the property part, however the
      prefix itself is written. */
  lemma StylePrefixKeepsPropertyCase(prefix: string, p: string)
    requires ToLowerInvariant(prefix) == "style."
    ensures Route(prefix + p) == StyleProperty(p)
  {
    var name := prefix + p;
    var lower := ToLowerInvariant(name);
    assert lower[..6] == ToLowerInvariant(prefix);
    assert |lower| != 5;
    assert name[6..] == p;
  }

  /** `style` reads the css text in every casing of the word. */
  lemma StyleInAnyCaseReadsCssText()
    ensures Route("style") == CssText && Route("STYLE") == CssText && Route("sTyLe") == CssText
    ensures Route("styles") == PlainAttribute("styles")
    ensures Route("id") == PlainAttribute("id")
  {
  }

  /** The null normalisation: `DBNull` and `null` become `null`, anything
      else its string form. */
  function Normalize(v: RawValue): (r: Option<string>)
    ensures r.None? <==> v.DBNull? || v.NullRef?
    ensures r.Some? ==> r.value == StringForm(v)
  {
    match v
    case DBNull => None
    case NullRef => None
    case Text(s) => Some(s)
    case Other(repr) => Some(repr)
  }

  /** A failure of `GetValue`: no element behind the bag, or the browser
      threw while reading. */
  datatype BagError = NullReference | NativeFailure

  /** An `ElementAttributeBag`: the element it reads (settable, may be
      `null`), its container, and the two cached wrappers. */
  datatype ElementAttributeBag = ElementAttributeBag(
    native: Option<NativeElement>,
    container: nat,
    element: Lazy<Wrapper>,
    elementTyped: Lazy<Wrapper>
  )

  /** A wrapper object built over a native element: its class and what it wraps. */
  datatype Wrapper = Wrapper(variant: Comparers.ElementVariant, handle: Option<nat>, container: nat)

  /** A bag as a constructor leaves it: nothing cached yet. */
  function NewBag(native: Option<NativeElement>, container: nat): (b: ElementAttributeBag)
    ensures b.element.Unbuilt? && b.elementTyped.Unbuilt?
  {
    ElementAttributeBag(native, container, Unbuilt, Unbuilt)
  }

  /** The raw read `GetValue` performs for a name that is not `style`. */
  function RawRead(e: NativeElement, name: string): Fallible<RawValue> {
    match Route(name)
    case StyleProperty(p) => e.styleProperty(p)
    case _ => e.getAttribute(name)
  }

  /** `GetValue`: reads through the route of `name` and normalises the value.
      A `null` name fails when it is lower-cased, before anything is read. */
  function GetValue(bag: ElementAttributeBag, name: Option<string>): (r: Result<Option<string>, BagError>)
    ensures name.None? || bag.native.None? ==> r == Failure(NullReference)
    ensures name.Some? && bag.native.Some? && EqualsIgnoreCase(name.value, "style") ==>
      match bag.native.value.cssText
      case Throws => r == Failure(NativeFailure)
      case Returns(text) => r == Success(text)
    ensures name.Some? && bag.native.Some? && !EqualsIgnoreCase(name.value, "style") ==>
      match RawRead(bag.native.value, name.value)
      case Throws => r == Failure(NativeFailure)
      case Returns(v) => r == Success(Normalize(v))
  {
    match (name, bag.native)
    case (None, _) => Failure(NullReference)
    case (_, None) => Failure(NullReference)
    case (Some(n), Some(e)) =>
      var read := if Route(n).CssText? then e.cssText else
        match RawRead(e, n)
        case Throws => Throws
        case Returns(v) => Returns(Normalize(v));
      match read
      case Throws => Failure(NativeFailure)
      case Returns(v) => Success(v)
  }

  /** A plain attribute that is absent or `DBNull` reads as `null`; one that
      holds a number reads as its string form. */
  lemma GetValueNormalizesNulls(bag: ElementAttributeBag, name: string)
    requires bag.native.Some? && Route(name).PlainAttribute?
    ensures bag.native.value.getAttribute(name) == Returns(DBNull) ==> GetValue(bag, Some(name)) == Success(None)
    ensures bag.native.value.getAttribute(name) == Returns(NullRef) ==> GetValue(bag, Some(name)) == Success(None)
    ensures forall repr :: bag.native.value.getAttribute(name) == Returns(Other(repr)) ==> GetValue(bag, Some(name)) == Success(Some(repr))
  {
  }

  /** The handle of the element a bag reads, `null` when it has none. */
  function HandleOf(native: Option<NativeElement>): Option<nat> {
    if native.Some? then Some(native.value.handle) else None
  }

  /** The `Element` property: an `ElementsContainer` over the bag's element,
      built on the first read and the same object on every later read. */
  function GetElement(bag: ElementAttributeBag): (r: (Wrapper, ElementAttributeBag))
    ensures r.1.element == Built(r.0)
    ensures bag.element.Built? ==> r.0 == bag.element.value
    ensures bag.element.Unbuilt? ==> r.0 == Wrapper(Comparers.ElementsContainer, HandleOf(bag.native), bag.container)
    ensures r.1.native == bag.native && r.1.container == bag.container && r.1.elementTyped == bag.elementTyped
  {
    var (w, cell) := Force(bag.element, Wrapper(Comparers.ElementsContainer, HandleOf(bag.native), bag.container));
    (w, bag.(element := cell))
  }

  /** The `ElementTyped` property: the wrapper class chosen by `typeOf` (the
      typed-element factory, not part of this model), cached the same way. */
  function GetElementTyped(bag: ElementAttributeBag, typeOf: Option<nat> -> Comparers.ElementVariant): (r: (Wrapper, ElementAttributeBag))
    ensures r.1.elementTyped == Built(r.0)
    ensures bag.elementTyped.Built? ==> r.0 == bag.elementTyped.value
    ensures bag.elementTyped.Unbuilt? ==>
      r.0.handle == HandleOf(bag.native) && r.0.container == bag.container && r.0.variant == typeOf(r.0.handle)
    ensures r.1.native == bag.native && r.1.container == bag.container && r.1.element == bag.element
  {
    var handle := HandleOf(bag.native);
    var (w, cell) := Force(bag.elementTyped, Wrapper(typeOf(handle), handle, bag.container));
    (w, bag.(elementTyped := cell))
  }

  /** The `IHTMLElement` setter: replaces the element read from, and leaves
      both caches as they are. */
  function SetNative(bag: ElementAttributeBag, native: Option<NativeElement>): (r: ElementAttributeBag)
    ensures r.native == native && r.container == bag.container
    ensures r.element == bag.element && r.elementTyped == bag.elementTyped
  {
    bag.(native := native)
  }

  /** Once built, `Element` is the same object on every later read, even after
      the bag has been pointed at another element. */
  lemma ElementIsBuiltOnce(bag: ElementAttributeBag, other: Option<NativeElement>)
    ensures var (first, after) := GetElement(bag);
      GetElement(after).0 == first && GetElement(SetNative(after, other)).0 == first
  {
  }

  /** The same holds for `ElementTyped`, after another element is set and
      whatever the typing factory answers later. */
  lemma ElementTypedIsBuiltOnce(bag: ElementAttributeBag, other: Option<NativeElement>,
                                typeOf: Option<nat> -> Comparers.ElementVariant,
                                laterTypeOf: Option<nat> -> Comparers.ElementVariant)
    ensures var (first, after) := GetElementTyped(bag, typeOf);
      && GetElementTyped(after, laterTypeOf).0 == first
      && GetElementTyped(SetNative(after, other), laterTypeOf).0 == first
  {
  }
}
