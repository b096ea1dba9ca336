/** What several components share: sizes, sequences of sequences, and units of time. */
module Common {
  const U64_MAX: nat := 0xFFFF_FFFF_FFFF_FFFF

  function Min(a: nat, b: nat): nat { if a <= b then a else b }

  function Max(a: nat, b: nat): nat { if a <= b then b else a }

  /** A subtraction that saturates at zero. */
  function Less(a: nat, b: nat): nat { if a < b then 0 else a - b }

  function Flat<T>(parts: seq<seq<T>>): seq<T> {
    if parts == [] then [] else Flat(parts[..|parts| - 1]) + parts[|parts| - 1]
  }

  datatype TimeUnit = Second | Millisecond | Microsecond | Nanosecond {
    function Nanos(): int {
      match this
      case Second => 1_000_000_000
      case Millisecond => 1_000_000
      case Microsecond => 1_000
      case Nanosecond => 1
    }
  }
}
