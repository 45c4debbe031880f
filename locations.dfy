/** The matcher's result: one group of alternative analyses per span of the chunk. */
module Locations {

  /** One candidate analysis of one span. The weight is kept in the form in which
      the tokenizer prints it. `inputParts` and `outputParts` are the offsets at which
      the sub-tokens of a multi-token match begin in `input` and in `output`. */
  datatype Location = Location(
    input: string,
    output: string,
    weight: string,
    inputParts: seq<nat>,
    outputParts: seq<nat>)

  /** The alternative analyses of one span. */
  type LocationVector = seq<Location>

  /** One group per consecutive span of a chunk. */
  type LocationVectorVector = seq<LocationVector>

  /** The analysis string the matcher gives a span it could not analyse. */
  const NonmatchingMarker: string := "@_NONMATCHING_@"

  /** The tag separator and the subreading separator, both fixed in the tool. */
  const TagSeparator: char := '+'
  const SubreadingSeparator: char := '#'

  /** The label of the weight tag in the subreading format. */
  const WeightTag: string := "W"

  /** A group standing for text the matcher could not analyse. */
  predicate IsNonmatching(g: LocationVector)
  {
    |g| == 1 && g[0].output == NonmatchingMarker
  }

  /** Offsets in ascending order (each at least its predecessor), none beyond `bound`. */
  predicate Ascending(xs: seq<nat>, bound: nat)
  {
    && (forall i :: 0 < i < |xs| ==> xs[i - 1] <= xs[i])
    && (forall i :: 0 <= i < |xs| ==> xs[i] <= bound)
  }

  /** The part offsets pair up and lie, in order, within `input` and `output`. */
  predicate WellFormed(l: Location)
  {
    && |l.inputParts| == |l.outputParts|
    && Ascending(l.inputParts, |l.input|)
    && Ascending(l.outputParts, |l.output|)
  }

  /** No output part begins on a subreading separator (other than at offset 0). */
  predicate NoPartAtSeparator(l: Location)
  {
    forall k :: 0 <= k < |l.outputParts| && 0 < l.outputParts[k] < |l.output| ==>
      l.output[l.outputParts[k]] != SubreadingSeparator
  }

  /** What the subreading decomposition needs of a location to finish. */
  predicate Decomposable(l: Location)
  {
    WellFormed(l) && NoPartAtSeparator(l) && |l.output| > 0
  }
}
