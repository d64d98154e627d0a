/** `HtmlDialog`: a modal or modeless HTML dialog window, read as an
    attribute bag, closed through its window, and located in the native
    window tree by class name. */
module HtmlDialog {
  import opened Wrappers
  import opened Utility

  /** The window handle type (`IntPtr`). */
  type Handle = int

  /** `InvalidAttributException`: the attribute name and the element type. */
  datatype InvalidAttribute = InvalidAttribute(attributeName: Option<string>, elementType: string)

  /** `StringComparer.AreEqual(name, other, true)`: a null name equals no
      literal. */
  predicate NameIs(name: Option<string>, other: string) {
    name.Some? && EqualsIgnoreCase(name.value, other)
  }

  /** A dialog: its window and what reading its `Url` and `Title` gives
      (either read may throw). */
  datatype Dialog = Dialog(hwnd: Handle, url: Fallible<Option<string>>, title: Fallible<Option<string>>)

  /** `TryActionIgnoreException(() => value = read)` on a `value` that starts
      as `null`: a throwing read leaves it `null`. */
  function IgnoreException(read: Fallible<Option<string>>): (r: Option<string>)
    ensures read.Throws? ==> r.None?
    ensures read.Returns? ==> r == read.value
  {
    match read
    case Throws => None
    case Returns(v) => v
  }

  /** `GetValue`: `href` gives the Url and `title` the Title, in any case;
      every other name, `null` included, is an invalid attribute for a dialog. */
  function GetValue(d: Dialog, attributeName: Option<string>): (r: Result<Option<string>, InvalidAttribute>)
    ensures attributeName.None? ==> r == Failure(InvalidAttribute(None, "HTMLDialog"))
    ensures r.Failure? <==> !NameIs(attributeName, "href") && !NameIs(attributeName, "title")
    ensures r.Failure? ==> r.error == InvalidAttribute(attributeName, "HTMLDialog")
    ensures NameIs(attributeName, "href") ==> r == Success(IgnoreException(d.url))
    ensures NameIs(attributeName, "title") ==> r == Success(IgnoreException(d.title))
  {
    if NameIs(attributeName, "href") then Success(IgnoreException(d.url))
    else if NameIs(attributeName, "title") then Success(IgnoreException(d.title))
    else Failure(InvalidAttribute(attributeName, "HTMLDialog"))
  }

  /** A failing read is reported as `null`, never as an error. */
  lemma GetValueSwallowsReadFailures(d: Dialog)
    requires d.url.Throws? && d.title.Throws?
    ensures GetValue(d, Some("HREF")) == Success(None) && GetValue(d, Some("Title")) == Success(None)
    ensures GetValue(d, Some("src")).Failure?
  {
  }

  /** What closing a dialog does, in order. */
  datatype CloseStep = ForceClose(hwnd: Handle) | DisposeContainer

  /** `Close`: force-close the window only when it is visible, then always
      dispose the container. */
  function Close(d: Dialog, visible: bool): (steps: seq<CloseStep>)
    ensures ForceClose(d.hwnd) in steps <==> visible
    ensures |steps| > 0 && steps[|steps| - 1] == DisposeContainer
    ensures forall k :: 0 <= k < |steps| - 1 ==> steps[k] == ForceClose(d.hwnd)
    ensures |steps| == if visible then 2 else 1
  {
    (if visible then [ForceClose(d.hwnd)] else []) + [DisposeContainer]
  }

  /** `Dispose(disposing)`: whatever `disposing` says, goes through `Close`,
      so the container is disposed and a visible window is force-closed. */
  function Dispose(d: Dialog, disposing: bool, visible: bool): (steps: seq<CloseStep>)
    ensures ForceClose(d.hwnd) in steps <==> visible
    ensures |steps| > 0 && steps[|steps| - 1] == DisposeContainer
    ensures forall k :: 0 <= k < |steps| - 1 ==> steps[k] == ForceClose(d.hwnd)
    ensures |steps| == if visible then 2 else 1
  {
    Close(d, visible)
  }

  /** Window class of an HTML dialog frame. */
  const TridentDialogFrame: string := "Internet Explorer_TridentDlgFrame"

  /** Window class of the window that renders the document. */
  const ServerWindow: string := "Internet Explorer_Server"

  /** What `ObjectFromLresult` hands back: its HRESULT and the document object. */
  datatype ComReply = ComReply(hr: int, document: nat)

  /** The native window layer, as oracles: class names, the first child
      window of a class, the `WM_HTML_GETOBJECT` reply, and `ObjectFromLresult`. */
  datatype WindowTree = WindowTree(
    className: Handle -> string,
    firstChildOfClass: (Handle, string) -> Handle,
    getObjectReply: Handle -> int,
    objectFromLresult: int -> ComReply
  )

  /** Outcome of looking up a dialog's document. */
  datatype DocumentLookup = NoDocument | ComError(hr: int) | Document(document: nat)

  /** The window `IEDOMFromhWnd` asks for the document: `h` itself when it is
      a server window, otherwise its first server child. */
  function ServerWindowOf(t: WindowTree, h: Handle): Handle {
    if t.className(h) == ServerWindow then h else t.firstChildOfClass(h, ServerWindow)
  }

  /** `IEDOMFromhWnd`: only a dialog frame has a document; it is read from
      the frame's server child, if that child answers the get-object message. */
  function DocumentFromHandle(t: WindowTree, h: Handle): (r: DocumentLookup)
    ensures t.className(h) != TridentDialogFrame ==> r == NoDocument
    ensures r != NoDocument ==>
      var server := t.firstChildOfClass(h, ServerWindow);
      && t.className(h) == TridentDialogFrame
      && t.className(server) == ServerWindow
      && t.getObjectReply(server) != 0
      && (r.ComError? ==> r.hr != 0 && r.hr == t.objectFromLresult(t.getObjectReply(server)).hr)
      && (r.Document? ==> t.objectFromLresult(t.getObjectReply(server)) == ComReply(0, r.document))
  {
    if t.className(h) != TridentDialogFrame then NoDocument
    else
      var server := ServerWindowOf(t, h);
      if t.className(server) != ServerWindow then NoDocument
      else
        var lRes := t.getObjectReply(server);
        if lRes == 0 then NoDocument
        else
          var reply := t.objectFromLresult(lRes);
          if reply.hr != 0 then ComError(reply.hr) else Document(reply.document)
  }

  /** A dialog frame whose server child answers always yields a document or
      a COM error: the lookup does not give up silently in that case. */
  lemma AnsweringServerYieldsDocument(t: WindowTree, h: Handle)
    requires t.className(h) == TridentDialogFrame
    requires t.className(t.firstChildOfClass(h, ServerWindow)) == ServerWindow
    requires t.getObjectReply(t.firstChildOfClass(h, ServerWindow)) != 0
    ensures DocumentFromHandle(t, h) != NoDocument
  {
  }
}
