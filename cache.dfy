/** The in-memory snapshot cache (internal/cache/cache.go): the current
    record list and the instant it was stored. The read/write lock of the
    source is not modelled; the clock reading is a parameter of `Set`. */
module Cache {
  import opened Models

  class Cache {
    var repos: seq<CustomRepository>
    var lastFetch: Timestamp

    /** `NewCache`: nothing cached yet, zero timestamp. */
    constructor ()
      ensures repos == [] && lastFetch == ZeroTime
    {
      repos := [];
      lastFetch := ZeroTime;
    }

    /** Replaces both fields; nothing of the previous snapshot survives. */
    method Set(repos: seq<CustomRepository>, now: Timestamp)
      modifies this
      ensures this.repos == repos && this.lastFetch == now
    {
      this.repos := repos;
      this.lastFetch := now;
    }

    /** Returns the current snapshot and leaves it as it is. */
    method Get() returns (repos: seq<CustomRepository>, lastFetch: Timestamp)
      ensures repos == this.repos && lastFetch == this.lastFetch
    {
      repos := this.repos;
      lastFetch := this.lastFetch;
    }
  }
}
