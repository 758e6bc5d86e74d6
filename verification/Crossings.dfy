/** Boundary crossings and the decoded trace records they are recovered from
    (internal/boundarylog/recording.go). JSON decoding has already happened: a record is
    one of the cases `assembler.push` distinguishes. */
module Crossings {
  import opened Wrappers

  datatype RawValue = RawValue(kind: string, text: string)

  datatype Kind = Export | Import

  datatype Crossing = Crossing(
    seqNo: nat,
    depth: nat,
    kind: Kind,
    name: string,
    index: uint32,
    args: seq<RawValue>,
    results: seq<RawValue>,
    hasResults: bool,
    marked: bool)        // delimited by its own pair of import realm markers

  /** What an `Event` record turned out to be. */
  datatype Marker =
    | Foreign                                   // not a marker this package reads
    | ExportEdge                                // `wasm export #<n>`
    | ImportEdge(index: uint32, enter: bool)    // `wasm import #<n>`
    | HostRecord(accepted: bool)                // host state, folded or refused

  datatype Record =
    | Function(name: string)
    | VariableName(name: string)
    | Value(variableId: nat, value: Option<RawValue>)  // None: the payload does not decode
    | Call(functionId: nat)
    | Event(marker: Marker)
    | Return
    | Delimiter                                 // `Path` or `Step`
    | Unknown

  predicate TopLevelExport(c: Crossing) { c.kind.Export? && c.depth == 0 }

  predicate NestedExport(c: Crossing) { c.kind.Export? && c.depth > 0 }

  predicate AnyMarked(cs: seq<Crossing>) { exists i :: 0 <= i < |cs| && cs[i].marked }

  /** All the crossings the groups carry, in order. */
  function Concat(groups: seq<seq<Crossing>>): seq<Crossing> {
    if groups == [] then [] else groups[0] + Concat(groups[1..])
  }
}
