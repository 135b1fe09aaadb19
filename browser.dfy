/** The pieces of the browser the client's hooks and components touch: the
    `localStorage` string map, the attributes of the document's root element and
    the `<dialog>` element of the settings modal. */
module Browser {
  import opened Text

  /** `window.localStorage`: string keys to string values. */
  class LocalStorage {
    var items: map<string, string>

    constructor(initial: map<string, string>)
      ensures items == initial
    {
      items := initial;
    }

    /** `getItem(key)`: `None` stands for `null`. */
    function GetItem(key: string): (r: Option<string>)
      reads this
      ensures r.Some? <==> key in items
      ensures r.Some? ==> r.value == items[key]
    {
      if key in items then Some(items[key]) else None
    }

    method SetItem(key: string, value: string)
      modifies this
      ensures items == old(items)[key := value]
    {
      items := items[key := value];
    }
  }

  /** `document.documentElement`, reduced to its attributes. */
  class DocumentRoot {
    var attributes: map<string, string>

    constructor(initial: map<string, string>)
      ensures attributes == initial
    {
      attributes := initial;
    }

    method SetAttribute(name: string, value: string)
      modifies this
      ensures attributes == old(attributes)[name := value]
    {
      attributes := attributes[name := value];
    }
  }

  /** An `HTMLDialogElement`, reduced to whether it is shown. */
  class DialogElement {
    var open: bool

    constructor()
      ensures !open
    {
      open := false;
    }

    method ShowModal()
      modifies this
      ensures open
    {
      open := true;
    }

    /** `close()`: a shown dialog is hidden and a `close` event is fired at it;
        closing a dialog that is not shown does nothing. `fired` tells whether the
        event was fired. */
    method Close() returns (fired: bool)
      modifies this
      ensures !open && fired == old(open)
    {
      fired := open;
      open := false;
    }
  }
}
