/**
 * misc.Architecture: the chip's dimensions and its five registries of
 * special cells. The constructor only stores its arguments (no minimum size,
 * registries may be empty) and the getters return them, so the type is a
 * record: rows is the first field, columns the second, and each registry
 * keeps the order it was read in (the codec selects registry entries by index).
 */
module Architectures {
  import opened Locations

  datatype Architecture = Architecture(
    rows: int,
    columns: int,
    inputs: seq<Location>,
    outputs: seq<Location>,
    sensors: seq<Location>,
    detectors: seq<Location>,
    heaters: seq<Location>)
}
