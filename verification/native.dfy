/** The browser-side element the wrappers read from. Its reads are oracles:
    the model fixes what the wrappers do with whatever they return. */
module Native {
  import opened Wrappers

  /** A COM value as `getAttribute` or a style property hands it back. */
  datatype RawValue =
    | DBNull                 // `DBNull.Value`
    | NullRef                // `null`
    | Text(s: string)        // a `System.String`
    | Other(repr: string)    // any other object, with what its `ToString()` returns

  /** The `IHTMLElement` behind a wrapper. */
  datatype NativeElement = NativeElement(
    handle: nat,                                   // identity of the DOM node
    cssText: Fallible<Option<string>>,             // `style.cssText`
    styleProperty: string -> Fallible<RawValue>,   // a property of the `style` object, by name
    getAttribute: string -> Fallible<RawValue>     // `getAttribute(name, 0)`
  )

  /** What `ToString()` of a non-null raw value returns. */
  function StringForm(v: RawValue): string
    requires v.Text? || v.Other?
  {
    if v.Text? then v.s else v.repr
  }
}
