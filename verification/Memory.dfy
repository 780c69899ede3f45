/** C strings and copying into arrays, as memcpy and the like do. */
module Memory {

  /** The end of a C string. */
  const NUL: char := '\0'

  method Copy<T>(items: seq<T>, target: array<T>, at: nat)
    requires at + |items| <= target.Length
    modifies target
    ensures target[..at] == old(target[..at])
    ensures target[at..at + |items|] == items
    ensures target[at + |items|..] == old(target[at + |items|..])
  {
    for i := 0 to |items|
      invariant forall k :: 0 <= k < at ==> target[k] == old(target[k])
      invariant forall k :: 0 <= k < i ==> target[at + k] == items[k]
      invariant forall k :: at + |items| <= k < target.Length ==> target[k] == old(target[k])
    {
      target[at + i] := items[i];
    }
  }
}
