/** "Keeps the remaining elements in their order": one list is another with some elements
    left out. */
module Subsequences {
  predicate Embeds<T(==)>(small: seq<T>, big: seq<T>)
    decreases |big|
  {
    if small == [] then true
    else if big == [] then false
    else (small[0] == big[0] && Embeds(small[1..], big[1..])) || Embeds(small, big[1..])
  }
}
