/** The parts of the browser the client reads and writes: `localStorage` and `window.location`. */
module Browser {
  import opened Wrappers

  class Window {
    var storage: map<string, string>   // `localStorage`
    var location: string               // `window.location.href`

    constructor(storage: map<string, string>, location: string)
      ensures this.storage == storage && this.location == location
    {
      this.storage := storage;
      this.location := location;
    }
  }

  /** `localStorage.getItem(key)`: `null` when the key is absent. */
  function GetItem(storage: map<string, string>, key: string): (item: Option<string>)
    ensures item.Some? <==> key in storage
    ensures item.Some? ==> item.value == storage[key]
  {
    if key in storage then Some(storage[key]) else None
  }
}
