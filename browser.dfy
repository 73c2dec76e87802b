/**
 * The browser collaborators the scene touches, reduced to the state it
 * reads and writes: the canvas element's cursor style, the document's
 * set of event listeners and the profile's key-value settings store.
 * Each is one object shared by every scene, so each is a class here.
 */
module Browser {
  import opened Wrappers

  /** The `canvas.style.cursor` values the scene uses: "default", "pointer" and "none". */
  datatype Cursor = Default | Pointer | Hidden

  class Canvas {
    var cursor: Cursor

    constructor (cursor: Cursor)
      ensures this.cursor == cursor
    {
      this.cursor := cursor;
    }
  }

  /** A handler bound to its receiver, as `fn.bind(receiver)` yields it. */
  datatype Callback = Bound(receiver: object, handler: string)

  /** One `addEventListener(eventType, callback)` registration. */
  datatype Registration = Registration(eventType: string, callback: Callback)

  /**
   * The document's listener registry. Adding a registration that is already
   * present has no effect, and removing one that is absent has no effect.
   */
  class Document {
    var listeners: set<Registration>

    constructor ()
      ensures listeners == {}
    {
      listeners := {};
    }

    method AddEventListener(r: Registration)
      modifies this
      ensures listeners == old(listeners) + {r}
    {
      listeners := listeners + {r};
    }

    method RemoveEventListener(r: Registration)
      modifies this
      ensures listeners == old(listeners) - {r}
    {
      listeners := listeners - {r};
    }
  }

  /** The `localStorage` stand-in: string keys to string values, last write wins. */
  class KeyValueStore {
    var items: map<string, string>

    constructor (items: map<string, string>)
      ensures this.items == items
    {
      this.items := items;
    }

    /** `getItem`: the stored value, or nothing when the key is absent. */
    method GetItem(key: string) returns (v: Option<string>)
      ensures key in items ==> v == Some(items[key])
      ensures key !in items ==> v == None
    {
      v := if key in items then Some(items[key]) else None;
    }

    method SetItem(key: string, value: string)
      modifies this`items
      ensures items == old(items)[key := value]
    {
      items := items[key := value];
    }
  }
}
