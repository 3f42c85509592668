/** The per-thread event buffer as its users see it: a ring that keeps the newest events.
    Its implementation is not among the sources; the plugin's README.md:79-80 promises what is stated here. */
module EventBuffer {
  import opened Sampling

  lemma NewestSnoc(events: seq<AccessEvent>, n: nat, e: AccessEvent)
    ensures Newest(Newest(events, n) + [e], n) == Newest(events + [e], n)
  {
  }

  class EventRingBuffer {
    const capacity: nat
    /** The events held, oldest first. */
    var items: seq<AccessEvent>
    var accessCount: nat
    /** Everything ever appended. */
    ghost var appended: seq<AccessEvent>

    ghost predicate Valid()
      reads this
    {
      items == Newest(appended, capacity) && accessCount == |appended|
    }

    constructor (capacity: nat)
      ensures Valid() && this.capacity == capacity && appended == []
    {
      this.capacity := capacity;
      items, accessCount, appended := [], 0, [];
    }

    method Append(e: AccessEvent)
      requires Valid()
      modifies this
      ensures Valid() && appended == old(appended) + [e] && accessCount == old(accessCount) + 1
      ensures items ==
        if |old(items)| < capacity then old(items) + [e]
        else if capacity == 0 then []
        else old(items)[1..] + [e]
    {
      NewestSnoc(appended, capacity, e);
      items := Newest(items + [e], capacity);
      accessCount := accessCount + 1;
      appended := appended + [e];
    }

    function Size(): nat
      reads this
    {
      |items|
    }
  }
}
