/** A word that is written to an address. */
module WordWrites {
  datatype Hit = Hit(addr: int, data: int)
}
