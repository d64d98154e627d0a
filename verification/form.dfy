/** `Form`: its display name, its `name` attribute, and its cached tag table. */
module Forms {
  import opened Wrappers
  import opened Utility
  import opened Native
  import opened Caching
  import Elements

  /** A tag a wrapper class stands for (`ElementTag`). */
  datatype ElementTag = ElementTag(tagName: string)

  /** A form wrapper: the element it wraps and what the base class's
      `ToString` gives for it (that implementation is not part of this model). */
  datatype Form = Form(element: Elements.Element, baseToString: Option<string>)

  /** `Name`: the value of the `name` attribute, read like any attribute. */
  function Name(f: Form): (r: Option<string>)
    ensures r.Some? ==> f.element.native.getAttribute("name") == Returns(Text(r.value))
    ensures r.None? ==> forall s :: f.element.native.getAttribute("name") != Returns(Text(s))
  {
    Elements.GetAttributeValue(f.element, "name")
  }

  /** `ToString`: Title, else Id, else Name, each only when neither null nor
      empty, else the base class's `ToString`. */
  function ToString(f: Form): (r: Option<string>)
    ensures r == FirstNotNullOrEmpty([f.element.title, f.element.id, Name(f)], f.baseToString)
  {
    var chain := [f.element.title, f.element.id, Name(f)];
    if IsNotNullOrEmpty(f.element.title) then f.element.title
    else if IsNotNullOrEmpty(f.element.id) then f.element.id
    else if IsNotNullOrEmpty(Name(f)) then
      assert IsNullOrEmpty(chain[0]) && IsNullOrEmpty(chain[1]) && chain[2] == Name(f);
      Name(f)
    else f.baseToString
  }

  /** Each link of the fallback chain, spelled out. */
  lemma ToStringFallbacks(f: Form)
    ensures IsNotNullOrEmpty(f.element.title) ==> ToString(f) == f.element.title
    ensures IsNullOrEmpty(f.element.title) && IsNotNullOrEmpty(f.element.id) ==> ToString(f) == f.element.id
    ensures IsNullOrEmpty(f.element.title) && IsNullOrEmpty(f.element.id) && IsNotNullOrEmpty(Name(f))
      ==> ToString(f) == Name(f)
    ensures IsNullOrEmpty(f.element.title) && IsNullOrEmpty(f.element.id) && IsNullOrEmpty(Name(f))
      ==> ToString(f) == f.baseToString
  {
  }

  /** The tag table of forms. */
  const FormTags: seq<ElementTag> := [ElementTag("form")]

  /** The only values the static `elementTags` field ever holds. */
  predicate ValidTagCache(cache: Lazy<seq<ElementTag>>) {
    cache.Unbuilt? || cache.value == FormTags
  }

  /** `ElementTags`: builds the one-tag table on first access and returns
      the stored table afterwards. */
  function ElementTags(cache: Lazy<seq<ElementTag>>): (r: (seq<ElementTag>, Lazy<seq<ElementTag>>))
    requires ValidTagCache(cache)
    ensures r.0 == FormTags && |r.0| == 1 && r.0[0].tagName == "form"
    ensures r.1 == Built(r.0)
  {
    Force(cache, FormTags)
  }

  /** A second read returns the very table of the first, and the field stays built. */
  lemma ElementTagsIsStable(cache: Lazy<seq<ElementTag>>)
    requires ValidTagCache(cache)
    ensures ValidTagCache(ElementTags(cache).1)
    ensures ElementTags(ElementTags(cache).1) == ElementTags(cache)
  {
  }
}
