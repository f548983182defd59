/** Positions and the great-circle distance between them, kept abstract. */
module Geography {
  datatype Position = Position(latitude: real, longitude: real)

  type Metric = (Position, Position) -> real
}
