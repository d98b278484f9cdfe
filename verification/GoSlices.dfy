/** Go slices over a heap of arrays: a header names an array and how much of it to show. */
module GoSlices {
  /** The capacity append gives a slice of n elements without room: whatever the library picks, above n. */
  function Capacity(grow: nat -> nat, n: nat): (c: nat)
    ensures c > n && (grow(n) > n ==> c == grow(n))
  {
    if grow(n) > n then grow(n) else n + 1
  }

  datatype Header = Header(id: nat, len: nat)

  predicate InBounds<T>(heap: seq<seq<T>>, h: Header) {
    h.id < |heap| && h.len <= |heap[h.id]|
  }

  function View<T>(heap: seq<seq<T>>, h: Header): seq<T> {
    if InBounds(heap, h) then heap[h.id][..h.len] else []
  }

  /** append: in place if there is room, else into a new array, whose unused places hold the zero value. */
  function Push<T>(heap: seq<seq<T>>, grow: nat -> nat, h: Header, x: T, zero: T): (seq<seq<T>>, Header) {
    if h.id < |heap| && h.len < |heap[h.id]| then
      (heap[h.id := heap[h.id][h.len := x]], Header(h.id, h.len + 1))
    else
      var shown := View(heap, h);
      (heap + [shown + [x] + seq(Capacity(grow, |shown|) - |shown| - 1, _ => zero)], Header(|heap|, |shown| + 1))
  }

  lemma PushShows<T>(heap: seq<seq<T>>, grow: nat -> nat, h: Header, x: T, zero: T)
    ensures var (heap', h') := Push(heap, grow, h, x, zero);
            && InBounds(heap', h') && h'.len > 0 && View(heap', h') == View(heap, h) + [x]
            && ((h'.id == h.id < |heap| && h'.len == h.len + 1) || h'.id == |heap|)
  {
  }

  /** What a slice shows survives an append to any slice of another array, or to one that reaches at least as far. */
  lemma PushKeeps<T>(heap: seq<seq<T>>, grow: nat -> nat, h: Header, x: T, zero: T, g: Header)
    requires InBounds(heap, g) && (g.id == h.id ==> g.len <= h.len)
    ensures var heap' := Push(heap, grow, h, x, zero).0;
            InBounds(heap', g) && View(heap', g) == View(heap, g)
  {
  }
}
